/** What the table operations do to the data, field by field (libexio/Table.cc). */
module TableEffects {
  import opened KeyOrder
  import opened TableModel

  /** An update may write this name. */
  predicate Writes(fields: Fields, n: string) {
    n in fields && n != "RowKey" && n != "RowLastUpdated"
  }

  // ----- One row -----

  /** `after` is `before` with the writable fields written; the time of the last update aside. */
  ghost predicate Written(before: Row, after: Row, fields: Fields) {
    && after.key == before.key
    && (forall n :: n != "RowLastUpdated" ==> (n in after.fields <==> n in before.fields || Writes(fields, n)))
    && (forall n :: n != "RowLastUpdated" && n in after.fields ==>
          after.fields[n] == if Writes(fields, n) then fields[n] else before.fields[n])
  }

  /** A row is left alone when it has all the values already; otherwise they are written and the
      row is stamped with the time. */
  lemma RowIsWritten(r: Row, fields: Fields, now: string)
    ensures var r' := UpdatedRow(r, fields, now);
      && Written(r, r', fields)
      && (r' == r <==> forall n :: Writes(fields, n) ==> n in r.fields && r.fields[n] == fields[n])
      && (r' != r ==> "RowLastUpdated" in r'.fields && r'.fields["RowLastUpdated"] == now)
  {
    var r' := UpdatedRow(r, fields, now);
    var changes := Changes(r, fields);
    if n :| Writes(fields, n) && !(n in r.fields && r.fields[n] == fields[n]) {
      assert n in changes;
      assert r'.fields[n] == fields[n];
    } else {
      assert changes == map[];
    }
  }

  // ----- New columns -----

  /** One new column: every row gets it, empty, and a stamp; a reserved name changes no row. */
  lemma ColumnAppears(t: Table, column: string, clock: Clock)
    requires Good(t) && column !in t.columns
    ensures var t' := AddColumn(t, column, clock).table;
      && t'.columns == t.columns + [column] && |t'.rows| == |t.rows| && t'.ticks == t.ticks + |t.rows|
      && forall i :: 0 <= i < |t.rows| ==>
           t'.rows[i] == if column == "RowKey" || column == "RowLastUpdated" then t.rows[i]
                         else Row(t.rows[i].key, t.rows[i].fields[column := ""]["RowLastUpdated" := clock(t.ticks + i)])
  {
    var t' := AddColumn(t, column, clock).table;
    forall i | 0 <= i < |t.rows|
      ensures t'.rows[i] == if column == "RowKey" || column == "RowLastUpdated" then t.rows[i]
                            else Row(t.rows[i].key, t.rows[i].fields[column := ""]["RowLastUpdated" := clock(t.ticks + i)])
    {
      assert GoodRow(t.rows[i], t.columns);
      assert t'.rows[i] == UpdatedRow(t.rows[i], map[column := ""], clock(t.ticks + i));
      BlankIsWritten(t.rows[i], column, clock(t.ticks + i));
    }
  }

  lemma TwoWrites(f: Fields, column: string, now: string)
    ensures f + map[column := ""][ROW_LAST := now] == f[column := ""][ROW_LAST := now]
  {
  }

  lemma BlankIsWritten(r: Row, column: string, now: string)
    requires column !in r.fields || Reserved(column)
    ensures UpdatedRow(r, map[column := ""], now)
         == if Reserved(column) then r else Row(r.key, r.fields[column := ""][ROW_LAST := now])
  {
    var changes := Changes(r, map[column := ""]);
    if Reserved(column) {
      assert changes == map[];
    } else {
      assert column in changes && changes == map[column := ""];
      TwoWrites(r.fields, column, now);
      assert UpdatedRow(r, map[column := ""], now) == Row(r.key, r.fields + map[column := ""][ROW_LAST := now]);
    }
  }

  /** The name is among `columns`, was not a column before, and can be a field. */
  predicate IsNew(n: string, known: seq<string>, columns: seq<string>) {
    n in columns && n !in known && n != "RowKey" && n != "RowLastUpdated"
  }

  /** `after` is `before` with the new columns, empty; the time of the last update aside. */
  ghost predicate Widened(before: Row, after: Row, known: seq<string>, columns: seq<string>) {
    && after.key == before.key
    && (forall n :: n != "RowLastUpdated" ==> (n in after.fields <==> n in before.fields || IsNew(n, known, columns)))
    && (forall n :: n != "RowLastUpdated" && n in after.fields ==>
          after.fields[n] == if IsNew(n, known, columns) then "" else before.fields[n])
  }

  /** The row is unchanged, or its time is a reading of the clock from `lo` up to `hi`. */
  predicate Stamped(before: Row, after: Row, clock: Clock, lo: nat, hi: nat) {
    after == before ||
    ("RowLastUpdated" in after.fields && exists i :: lo <= i < hi && after.fields["RowLastUpdated"] == clock(i))
  }

  lemma WidenStep(r: Row, m: Row, m': Row, known: seq<string>, columns: seq<string>, column: string, now: string)
    requires GoodRow(r, known) && Widened(r, m, known, columns)
    requires m' == if column in known || column in columns || Reserved(column) then m
                   else Row(m.key, m.fields[column := ""]["RowLastUpdated" := now])
    ensures Widened(r, m', known, columns + [column])
  {
  }

  /** Any list of columns: the columns are the old ones and the listed ones, and every row is
      widened by the new ones. */
  lemma {:induction false} ColumnsAppear(t: Table, columns: seq<string>, clock: Clock)
    requires Good(t)
    ensures var t' := AddColumns(t, columns, clock).table;
      && Good(t') && |t'.rows| == |t.rows| && t.ticks <= t'.ticks
      && (forall c :: c in t'.columns <==> c in t.columns || c in columns)
      && (forall i :: 0 <= i < |t.rows| ==> Widened(t.rows[i], t'.rows[i], t.columns, columns))
      && (forall i :: 0 <= i < |t.rows| ==> Stamped(t.rows[i], t'.rows[i], clock, t.ticks, t'.ticks))
  {
    if columns != [] {
      var l := |columns| - 1;
      var front, column := columns[..l], columns[l];
      ColumnsAppear(t, front, clock);
      assert columns == front + [column];
      OneMoreColumn(t, AddColumns(t, front, clock).table, front, column, clock);
    }
  }

  lemma OneMoreColumn(t: Table, m: Table, front: seq<string>, column: string, clock: Clock)
    requires Good(t) && Good(m) && |m.rows| == |t.rows| && t.ticks <= m.ticks
    requires forall c :: c in m.columns <==> c in t.columns || c in front
    requires forall i :: 0 <= i < |t.rows| ==> Widened(t.rows[i], m.rows[i], t.columns, front)
    requires forall i :: 0 <= i < |t.rows| ==> Stamped(t.rows[i], m.rows[i], clock, t.ticks, m.ticks)
    ensures var t' := AddColumn(m, column, clock).table;
      && Good(t') && |t'.rows| == |t.rows| && t.ticks <= t'.ticks
      && (forall c :: c in t'.columns <==> c in t.columns || c in front + [column])
      && (forall i :: 0 <= i < |t.rows| ==> Widened(t.rows[i], t'.rows[i], t.columns, front + [column]))
      && (forall i :: 0 <= i < |t.rows| ==> Stamped(t.rows[i], t'.rows[i], clock, t.ticks, t'.ticks))
  {
    var t' := AddColumn(m, column, clock).table;
    AddColumnGood(m, column, clock);
    if column !in m.columns { ColumnAppears(m, column, clock); }
    forall i | 0 <= i < |t.rows|
      ensures Widened(t.rows[i], t'.rows[i], t.columns, front + [column])
      ensures Stamped(t.rows[i], t'.rows[i], clock, t.ticks, t'.ticks)
    {
      assert GoodRow(t.rows[i], t.columns);
      WidenStep(t.rows[i], m.rows[i], t'.rows[i], t.columns, front, column, clock(m.ticks + i));
      StampLater(t.rows[i], m.rows[i], t'.rows[i], clock, t.ticks, m.ticks, t'.ticks, m.ticks + i);
    }
  }

  lemma StampLater(r: Row, m: Row, r': Row, clock: Clock, lo: nat, mid: nat, hi: nat, now: nat)
    requires Stamped(r, m, clock, lo, mid) && lo <= mid <= hi
    requires r' == m || (mid <= now < hi && "RowLastUpdated" in r'.fields && r'.fields["RowLastUpdated"] == clock(now))
    ensures Stamped(r, r', clock, lo, hi)
  {
    if r' == m && m != r {
      var i :| lo <= i < mid && m.fields["RowLastUpdated"] == clock(i);
      assert lo <= i < hi && r'.fields["RowLastUpdated"] == clock(i);
    }
  }

  // ----- update_row -----

  /** The row an update starts from: the old one, or a new one that has only its key. */
  function Base(t: Table, key: string): Row {
    var i := KeyPos(t.rows, key);
    if i < |t.rows| then t.rows[i] else Row(key, map["RowKey" := key])
  }

  /** `update_row` on the data: the row exists afterwards, with every value written and everything
      else as it was; every other row stays where it is and only gets the new columns, empty; and a
      row that changed is stamped with the time. */
  lemma UpdateWrites(t: Table, key: string, fields: Fields, clock: Clock)
    requires Good(t)
    ensures var t' := Do(t, Update(key, fields), clock).table;
      var at := KeyPos(t.rows, key);
      && |t'.rows| == (if at < |t.rows| then |t.rows| else |t.rows| + 1) && at < |t'.rows|
      && Written(Base(t, key), t'.rows[at], fields)
      && Stamped(Base(t, key), t'.rows[at], clock, t.ticks, t'.ticks)
      && (forall i :: 0 <= i < |t.rows| && i != at ==>
            && Widened(t.rows[i], t'.rows[i], t.columns, Listing(fields.Keys))
            && Stamped(t.rows[i], t'.rows[i], clock, t.ticks, t'.ticks))
      && (forall c :: c in t'.columns <==> c in t.columns || Writes(fields, c))
  {
    var at := KeyPos(t.rows, key);
    UpdateRowParts(t, key, fields, clock);
    var names := Ordinary(Listing(fields.Keys));
    OrdinaryNames(Listing(fields.Keys));
    var a := AddRow(t, key).table;
    var b := AddColumns(a, names, clock).table;
    ColumnsAppear(a, names, clock);
    RowIsThere(t, key, a, b);
    LastlyWritten(t, a, b, key, fields, names, clock, at);
    forall i | 0 <= i < |t.rows| && i != at
      ensures Widened(t.rows[i], b.rows[i], t.columns, Listing(fields.Keys))
    {
      assert Widened(a.rows[i], b.rows[i], t.columns, names);
      SameNews(t.rows[i], b.rows[i], t.columns, names, Listing(fields.Keys));
    }
    forall i | 0 <= i < |t.rows| && i != at
      ensures Stamped(t.rows[i], b.rows[i], clock, t.ticks, b.ticks + 1)
    {
      assert Stamped(a.rows[i], b.rows[i], clock, a.ticks, b.ticks);
      StampLater(t.rows[i], b.rows[i], b.rows[i], clock, t.ticks, b.ticks, b.ticks + 1, b.ticks);
    }
  }

  /** The row is at the same place in the three tables. */
  lemma RowIsThere(t: Table, key: string, a: Table, b: Table)
    requires a == AddRow(t, key).table && |b.rows| == |a.rows|
    requires forall i :: 0 <= i < |a.rows| ==> b.rows[i].key == a.rows[i].key
    ensures var at := KeyPos(t.rows, key);
      && at < |a.rows| && a.rows[at] == Base(t, key)
      && KeyPos(b.rows, key) == at && a.ticks == t.ticks && a.columns == t.columns
      && (forall i :: 0 <= i < |t.rows| ==> a.rows[i] == t.rows[i])
  {
    var at := KeyPos(t.rows, key);
    assert a.rows[at].key == key;
    assert b.rows[at].key == key;
    assert forall i :: 0 <= i < at ==> b.rows[i].key == t.rows[i].key;
  }

  lemma LastlyWritten(t: Table, a: Table, b: Table, key: string, fields: Fields, names: seq<string>, clock: Clock, at: nat)
    requires at < |a.rows| == |b.rows| && a.rows[at] == Base(t, key) && KeyPos(b.rows, key) == at
    requires a.ticks <= b.ticks && a.ticks == t.ticks && GoodRow(a.rows[at], a.columns)
    requires Widened(a.rows[at], b.rows[at], a.columns, names) && Stamped(a.rows[at], b.rows[at], clock, a.ticks, b.ticks)
    requires forall n :: n in names <==> Writes(fields, n)
    ensures var c := SetFields(b, key, fields, clock).table;
      && c.ticks == b.ticks + 1 && c.columns == b.columns && |c.rows| == |b.rows|
      && (forall i :: 0 <= i < |b.rows| && i != at ==> c.rows[i] == b.rows[i])
      && Written(Base(t, key), c.rows[at], fields)
      && Stamped(Base(t, key), c.rows[at], clock, t.ticks, c.ticks)
  {
    RowIsWritten(b.rows[at], fields, clock(b.ticks));
    var c := SetFields(b, key, fields, clock).table;
    StampLater(a.rows[at], b.rows[at], c.rows[at], clock, a.ticks, b.ticks, c.ticks, b.ticks);
    WidenThenWrite(a.rows[at], b.rows[at], c.rows[at], a.columns, names, fields);
  }

  lemma WidenThenWrite(r: Row, m: Row, r': Row, known: seq<string>, names: seq<string>, fields: Fields)
    requires Widened(r, m, known, names) && Written(m, r', fields)
    requires forall n :: n in names <==> Writes(fields, n)
    ensures Written(r, r', fields)
  {
  }

  /** Reserved names in the list make no difference. */
  lemma SameNews(r: Row, r': Row, known: seq<string>, names: seq<string>, all: seq<string>)
    requires Widened(r, r', known, names)
    requires forall n :: n in names <==> n in all && n != "RowKey" && n != "RowLastUpdated"
    ensures Widened(r, r', known, all)
  {
    assert forall n :: IsNew(n, known, names) <==> IsNew(n, known, all);
  }

  // ----- Removal -----

  /** `delete_row` and `clear_table` on the data: the other rows stay, in order, and the columns. */
  lemma RemovalRemoves(t: Table, key: string, clock: Clock)
    requires Good(t)
    ensures var t' := Do(t, Delete(key), clock).table;
      && t'.columns == t.columns && !HasRow(t'.rows, key)
      && (forall r :: r in t'.rows <==> r in t.rows && r.key != key)
      && (HasRow(t.rows, key) ==> |t'.rows| == |t.rows| - 1 && Do(t, Delete(key), clock).events == [RowRemoved(key)])
    ensures var t' := Do(t, Clear, clock).table; t'.rows == [] && t'.columns == t.columns
    ensures Do(t, Clear, clock).events == [TableCleared]
  {
    var at := KeyPos(t.rows, key);
    var t' := Do(t, Delete(key), clock).table;
    if at < |t.rows| {
      forall j | 0 <= j < |t'.rows| ensures t'.rows[j].key != key && t'.rows[j] in t.rows {
        assert t'.rows[j] == t.rows[if j < at then j else j + 1];
      }
      forall r | r in t.rows && r.key != key ensures r in t'.rows {
        var i :| 0 <= i < |t.rows| && t.rows[i] == r;
        assert t'.rows[if i < at then i else i - 1] == r;
      }
    }
  }
}
