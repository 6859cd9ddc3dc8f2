/** The table object: a row vector with an index, columns with an index, and subscribers
    (DataTable and DataRow in libexio/Table.cc). */
module TableObject {
  import Framing
  import opened KeyOrder
  import opened SamTree
  import opened TableModel
  import opened TableMessages
  import opened TableReplay
  import opened Snapshot
  import opened Publishing

  // ----- One row -----

  /** The part of `m` whose names the walk has seen. */
  function Restrict(m: Fields, seen: set<string>): Fields {
    map n | n in m && n in seen :: m[n]
  }

  lemma RestrictStep(m: Fields, seen: set<string>, n: string)
    requires n !in seen
    ensures Restrict(m, seen + {n}) == if n in m then Restrict(m, seen)[n := m[n]] else Restrict(m, seen)
  {
  }

  lemma ExtendBoth(a: Fields, b: Fields, n: string, v: string)
    ensures (a + b)[n := v] == a + b[n := v]
  {
  }

  /** At a name not seen before, comparing with the row so far is comparing with the old row. */
  lemma ChangeTest(r: Row, fields: Fields, seen: set<string>, n: string)
    requires n in fields && n !in seen
    ensures var ours := r.fields + Restrict(Changes(r, fields), seen);
      n in Changes(r, fields) <==> !Reserved(n) && (n !in ours || ours[n] != fields[n])
  {
  }

  /** The walk of `update_fields`: a field is changed only if its value differs. */
  method CollectChanges(r: Row, fields: Fields) returns (ours: Fields, event: Fields)
    ensures event == Changes(r, fields) && ours == r.fields + event
  {
    ours, event := r.fields, map[];
    var names := Listing(fields.Keys);
    ghost var seen, goal := {}, Changes(r, fields);
    var i := 0;
    while i < |names|
      invariant i <= |names|
      invariant forall j :: 0 <= j < i ==> names[j] in seen
      invariant forall j :: i <= j < |names| ==> names[j] !in seen
      invariant event == Restrict(goal, seen)
      invariant ours == r.fields + event
    {
      var n := names[i];
      RestrictStep(goal, seen, n);
      ChangeTest(r, fields, seen, n);
      ExtendBoth(r.fields, event, n, fields[n]);
      if !Reserved(n) && (n !in ours || ours[n] != fields[n]) {
        ours := ours[n := fields[n]];
        event := event[n := fields[n]];
      }
      seen := seen + {n};
      i := i + 1;
    }
    assert Restrict(goal, seen) == goal by {
      forall n | n in goal ensures n in seen { assert n in names; }
    }
  }

  /** `DataRow::update_fields`: the event carries exactly the changes and the time, and there is
      none when nothing changed. */
  method UpdateFields(r: Row, fields: Fields, now: string) returns (row: Row, events: seq<Event>)
    ensures row == UpdatedRow(r, fields, now)
    ensures events == RowEvents(r, fields, now)
  {
    var ours, event := CollectChanges(r, fields);
    events := [];
    if event != map[] {
      ExtendBoth(r.fields, event, ROW_LAST, now);
      ours := ours[ROW_LAST := now];
      event := event[ROW_LAST := now];
      events := [RowMultiUpdate(r.key, event)];
    } else {
      assert r.fields + event == r.fields;
    }
    row := Row(r.key, ours);
  }

  // ----- The indexes -----

  /** The index is a bijection between the keys and their positions. */
  predicate Indexed(index: map<string, nat>, keys: seq<string>) {
    && (forall k :: k in index ==> index[k] < |keys| && keys[index[k]] == k)
    && (forall i :: 0 <= i < |keys| ==> keys[i] in index && index[keys[i]] == i)
  }

  function RowKeys(rows: seq<Row>): seq<string> {
    seq(|rows|, i requires 0 <= i < |rows| => rows[i].key)
  }

  lemma SameRowKeys(a: seq<Row>, b: seq<Row>)
    requires |a| == |b| && forall i :: 0 <= i < |a| ==> a[i].key == b[i].key
    ensures RowKeys(a) == RowKeys(b)
  {
    assert forall i :: 0 <= i < |a| ==> RowKeys(a)[i] == a[i].key && RowKeys(b)[i] == b[i].key;
  }

  predicate NoRepeats(keys: seq<string>) {
    keys == [] || (keys[|keys| - 1] !in keys[..|keys| - 1] && NoRepeats(keys[..|keys| - 1]))
  }

  /** The index that entering the keys one after the other gives. */
  function IndexOf(keys: seq<string>): map<string, nat> {
    if keys == [] then map[] else IndexOf(keys[..|keys| - 1])[keys[|keys| - 1] := |keys| - 1]
  }

  lemma {:induction false} IndexOfIsIndexed(keys: seq<string>)
    requires NoRepeats(keys)
    ensures Indexed(IndexOf(keys), keys)
  {
    if keys != [] {
      var front, l := keys[..|keys| - 1], |keys| - 1;
      IndexOfIsIndexed(front);
      forall i | 0 <= i < |keys| ensures keys[i] in IndexOf(keys) && IndexOf(keys)[keys[i]] == i {
        if i < l { assert front[i] == keys[i]; }
      }
    }
  }

  lemma {:induction false} IndexedHasNoRepeats(index: map<string, nat>, keys: seq<string>)
    requires forall i :: 0 <= i < |keys| ==> keys[i] in index && index[keys[i]] == i
    ensures NoRepeats(keys)
  {
    if keys != [] {
      var front := keys[..|keys| - 1];
      forall i | 0 <= i < |front| ensures front[i] in index && index[front[i]] == i { assert front[i] == keys[i]; }
      IndexedHasNoRepeats(index, front);
    }
  }

  /** A key index is a bijection with the positions exactly when no key repeats and the index is
      the one a rebuild would give. */
  lemma IndexedIff(index: map<string, nat>, keys: seq<string>)
    ensures Indexed(index, keys) <==> NoRepeats(keys) && index == IndexOf(keys)
  {
    if NoRepeats(keys) { IndexOfIsIndexed(keys); }
    if Indexed(index, keys) {
      IndexedHasNoRepeats(index, keys);
      IndexOfIsIndexed(keys);
      forall k | k in index ensures k in IndexOf(keys) && IndexOf(keys)[k] == index[k] { assert keys[index[k]] == k; }
      forall k | k in IndexOf(keys) ensures k in index { assert keys[IndexOf(keys)[k]] == k; }
      assert index == IndexOf(keys);
    }
  }

  /** Clearing the index and entering every position again. */
  method Rebuild(keys: seq<string>) returns (index: map<string, nat>)
    ensures index == IndexOf(keys)
  {
    index := map[];
    var i := 0;
    while i < |keys|
      invariant i <= |keys| && index == IndexOf(keys[..i])
    {
      assert keys[..i + 1][..i] == keys[..i];
      index := index[keys[i] := i];
      i := i + 1;
    }
    assert keys[..i] == keys;
  }

  function Shifted(p: nat, gone: nat): nat {
    if p > gone then p - 1 else p
  }

  /** The decrement in place after a row is erased. */
  method ShiftDown(index: map<string, nat>, gone: nat) returns (r: map<string, nat>)
    ensures r.Keys == index.Keys && forall k :: k in index ==> r[k] == Shifted(index[k], gone)
  {
    r := index;
    var names := Listing(index.Keys);
    var i := 0;
    while i < |names|
      invariant i <= |names| && r.Keys == index.Keys
      invariant forall j :: 0 <= j < i ==> r[names[j]] == Shifted(index[names[j]], gone)
      invariant forall j :: i <= j < |names| ==> r[names[j]] == index[names[j]]
    {
      if r[names[i]] > gone { r := r[names[i] := r[names[i]] - 1]; }
      i := i + 1;
    }
    forall k | k in index ensures r[k] == Shifted(index[k], gone) {
      assert k in names;
    }
  }

  /** Erasing a position, dropping its key and shifting the later positions keeps the bijection. */
  lemma ShiftedIsIndexed(index: map<string, nat>, keys: seq<string>, gone: nat, r: map<string, nat>)
    requires Indexed(index, keys) && gone < |keys|
    requires r.Keys == index.Keys - {keys[gone]} && forall k :: k in r ==> r[k] == Shifted(index[k], gone)
    ensures Indexed(r, keys[..gone] + keys[gone + 1..])
  {
    var rest := keys[..gone] + keys[gone + 1..];
    forall k | k in r ensures r[k] < |rest| && rest[r[k]] == k {
      assert index[k] != gone;
    }
    forall i | 0 <= i < |rest| ensures rest[i] in r && r[rest[i]] == i {
      var j := if i < gone then i else i + 1;
      assert rest[i] == keys[j] && index[keys[j]] == j;
    }
  }

  /** Dropping a key and decrementing the later positions in place gives the index a rebuild
      would give. */
  method EraseFromIndex(index: map<string, nat>, key: string, ghost keys: seq<string>) returns (r: map<string, nat>)
    requires NoRepeats(keys) && index == IndexOf(keys) && key in index && index[key] < |keys|
    ensures var rest := keys[..index[key]] + keys[index[key] + 1..];
      NoRepeats(rest) && r == IndexOf(rest)
  {
    IndexedIff(index, keys);
    r := ShiftDown(index - {key}, index[key]);
    ShiftedIsIndexed(index, keys, index[key], r);
    IndexedIff(r, keys[..index[key]] + keys[index[key] + 1..]);
  }

  lemma IndexedPos(rows: seq<Row>, key: string)
    requires NoRepeats(RowKeys(rows))
    ensures var index := IndexOf(RowKeys(rows));
      && (key in index <==> HasRow(rows, key))
      && (key in index ==> index[key] == KeyPos(rows, key))
  {
    var keys, i := RowKeys(rows), KeyPos(rows, key);
    IndexOfIsIndexed(keys);
    if i < |rows| { assert keys[i] == key; }
  }

  // ----- All rows -----

  method UpdateNextRow(r: seq<Row>, i: nat, fields: Fields, clock: Clock, t: nat, ghost rows: seq<Row>, ghost after: seq<Row>)
    returns (r': seq<Row>, events: seq<Event>)
    requires i < |rows| && after == UpdateAll(rows, fields, clock, t) && r == Mixed(rows, after, i)
    ensures r' == Mixed(rows, after, i + 1)
    ensures events == RowEvents(rows[i], fields, clock(t + i))
  {
    MixedStep(rows, after, i);
    var row;
    row, events := UpdateFields(r[i], fields, clock(t + i));
    r' := r[i := row];
  }

  /** Every row updated in place, the loop of `add_column_NOLOCK`. */
  method UpdateEveryRow(rows: seq<Row>, fields: Fields, clock: Clock, t: nat) returns (r: seq<Row>, events: seq<Event>)
    ensures r == UpdateAll(rows, fields, clock, t)
    ensures events == UpdateAllEvents(rows, fields, clock, t)
  {
    r, events := rows, [];
    ghost var after := UpdateAll(rows, fields, clock, t);
    MixedEnds(rows, after);
    var i := 0;
    while i < |rows|
      invariant i <= |rows|
      invariant r == Mixed(rows, after, i)
      invariant events == UpdateAllEvents(rows[..i], fields, clock, t)
    {
      UpdateAllEventsStep(rows, i, fields, clock, t);
      var es;
      r, es := UpdateNextRow(r, i, fields, clock, t, rows, after);
      events := events + es;
      i := i + 1;
    }
    assert rows[..i] == rows;
  }

  lemma SameKeys(rows: seq<Row>, fields: Fields, clock: Clock, t: nat)
    ensures RowKeys(UpdateAll(rows, fields, clock, t)) == RowKeys(rows)
  {
    UpdateAllKeys(rows, fields, clock, t);
    SameRowKeys(rows, UpdateAll(rows, fields, clock, t));
  }

  /** The body of `add_column_NOLOCK`: a column not yet indexed is appended, the index is
      rebuilt, and every row gets an empty field. */
  method GrowColumns(t: Table, index: map<string, nat>, column: string, clock: Clock)
    returns (t': Table, index': map<string, nat>, events: seq<Event>)
    requires NoRepeats(t.columns) && index == IndexOf(t.columns)
    ensures Step(t', events) == AddColumn(t, column, clock)
    ensures NoRepeats(t'.columns) && index' == IndexOf(t'.columns) && RowKeys(t'.rows) == RowKeys(t.rows)
  {
    InIndex(t.columns, column);
    if column !in index {
      SameKeys(t.rows, map[column := ""], clock, t.ticks);
      var columns := t.columns + [column];
      index' := Rebuild(columns);
      var rows;
      rows, events := UpdateEveryRow(t.rows, map[column := ""], clock, t.ticks);
      t' := TableModel.Table(rows, columns, t.ticks + |rows|);
      events := [NewColumn(column)] + events;
      assert columns[..|t.columns|] == t.columns;
    } else {
      t', index', events := t, index, [];
    }
  }

  /** The snapshot for one session and the batch size to keep. */
  method PrepareSnapshot(name: string, rows: seq<Row>, start: nat, session: nat)
    returns (ok: bool, out: seq<Delivery>, size: nat, ghost cut: Cut)
    requires start >= 1
    ensures ok <==> AllFitAlone(name, ItemsOf(rows))
    ensures ok ==> GoodCut(name, rows, cut) && out == SendList(SnapshotMessages(name, cut), session)
    ensures ok ==> 1 <= size <= start && Full(cut, size, start, true) && Shrunk(name, ItemsOf(rows), start, size)
    ensures !ok ==> out == [] && size == start
  {
    var msgs;
    ok, msgs, size, cut := TakeSnapshot(name, rows, start);
    out := [];
    if ok { out := SendEach(msgs, session); } else { size := start; }
  }

  // ----- The table -----

  datatype Indexes = Indexes(rows: map<string, nat>, columns: map<string, nat>)

  class DataTable {
    const name: string
    const clock: Clock
    var rows: seq<Row>
    var rowIndex: map<string, nat>
    var columns: seq<string>
    var columnIndex: map<string, nat>
    var subscribers: seq<nat>
    var batchSize: nat
    var ticks: nat
    var sent: seq<Delivery>
    ghost var snapped: set<nat>

    ghost function Model(): Table
      reads `rows, `columns, `ticks
    {
      TableModel.Table(rows, columns, ticks)
    }

    /** The whole state, as the transition system has it. */
    ghost function Abs(): World
      reads this
    {
      World(Model(), subscribers, sent, snapped)
    }

    /** No key and no column repeats, and each index is the one a rebuild would give, which makes
        it a bijection with the positions (IndexedIff). */
    ghost predicate Valid()
      reads `rows, `rowIndex, `columns, `columnIndex, `batchSize
    {
      && NoRepeats(RowKeys(rows)) && NoRepeats(columns)
      && Indexes(rowIndex, columnIndex) == Indexes(IndexOf(RowKeys(rows)), IndexOf(columns))
      && 1 <= batchSize <= 500
    }

    constructor (name: string, clock: Clock)
      ensures Valid() && Abs() == NewWorld && batchSize == 500
      ensures this.name == name && this.clock == clock
    {
      this.name, this.clock := name, clock;
      rows, rowIndex, columns, columnIndex := [], map[], [], map[];
      subscribers, batchSize, ticks, sent, snapped := [], 500, 0, [], {};
    }

    /** `_nolock_add_row`. */
    method AddNewRow(key: string) returns (events: seq<Event>)
      requires Valid() && key !in rowIndex
      modifies `rows, `rowIndex
      ensures Valid() && key in rowIndex && Step(Model(), events) == AddRow(old(Model()), key)
    {
      IndexedPos(rows, key);
      InIndex(RowKeys(rows), key);
      KeysGrow(rows, key);
      rows := rows + [FreshRow(key)];
      rowIndex := Rebuild(RowKeys(rows));
      events := [NewRow(key)];
    }

    /** `add_column_NOLOCK`. */
    method AddOneColumn(column: string) returns (events: seq<Event>)
      requires Valid()
      modifies `rows, `columns, `columnIndex, `ticks
      ensures RowKeys(rows) == old(RowKeys(rows))
      ensures Valid() && Step(Model(), events) == AddColumn(old(Model()), column, clock)
    {
      var t;
      t, columnIndex, events := GrowColumns(TableModel.Table(rows, columns, ticks), columnIndex, column, clock);
      rows, columns, ticks := t.rows, t.columns, t.ticks;
    }

    /** One more column behind those of `done`, which were added to `t`. */
    method AddNextColumn(column: string, events: seq<Event>, ghost t: Table, ghost done: seq<string>) returns (more: seq<Event>)
      requires Valid() && Step(Model(), events) == TableModel.AddColumns(t, done, clock)
      modifies `rows, `columns, `columnIndex, `ticks
      ensures Valid() && RowKeys(rows) == old(RowKeys(rows))
      ensures Step(Model(), more) == TableModel.AddColumns(t, done + [column], clock)
    {
      AddColumnsSnoc(t, done, column, clock);
      var es := AddOneColumn(column);
      more := events + es;
    }

    /** The loop of `add_columns`. */
    method AddEachColumn(cols: seq<string>) returns (events: seq<Event>)
      requires Valid()
      modifies `rows, `columns, `columnIndex, `ticks
      ensures RowKeys(rows) == old(RowKeys(rows))
      ensures Valid() && Step(Model(), events) == TableModel.AddColumns(old(Model()), cols, clock)
    {
      events := [];
      ghost var done := [];
      var i := 0;
      while i < |cols|
        invariant i <= |cols| && done == cols[..i]
        invariant Valid() && RowKeys(rows) == old(RowKeys(rows))
        invariant Step(Model(), events) == TableModel.AddColumns(old(Model()), done, clock)
      {
        events := AddNextColumn(cols[i], events, old(Model()), done);
        done := done + [cols[i]];
        i := i + 1;
      }
      assert cols[..i] == cols;
    }

    /** `_nolock_publish_update`: the subscribers that exist now get every message. */
    method Publish(events: seq<Event>, live: set<nat>)
      modifies `sent
      ensures sent == old(sent) + Broadcast(Messages(name, events), Existing(subscribers, live))
    {
      var subs := CopySubscribers(subscribers, live);
      if subs != [] {
        var msgs := SerialiseEvents(name, events);
        var out := SendMessages(msgs, subs);
        sent := sent + out;
      } else {
        BroadcastToNobody(Messages(name, events));
      }
    }

    /** The column loop of `update_row`: the reserved names are skipped. */
    method AddFieldColumns(names: seq<string>) returns (events: seq<Event>)
      requires Valid()
      modifies `rows, `columns, `columnIndex, `ticks
      ensures RowKeys(rows) == old(RowKeys(rows))
      ensures Valid() && Step(Model(), events) == TableModel.AddColumns(old(Model()), Ordinary(names), clock)
    {
      events := [];
      ghost var done := [];
      var i := 0;
      while i < |names|
        invariant i <= |names| && done == Ordinary(names[..i])
        invariant Valid() && RowKeys(rows) == old(RowKeys(rows))
        invariant Step(Model(), events) == TableModel.AddColumns(old(Model()), done, clock)
      {
        OrdinaryStep(names, i);
        if !Reserved(names[i]) {
          events := AddNextColumn(names[i], events, old(Model()), done);
          done := done + [names[i]];
        }
        i := i + 1;
      }
      assert names[..i] == names;
    }

    /** `m_rows[ m_row_index[ rowkey ] ].update_fields`. */
    method SetRowFields(key: string, fields: Fields) returns (events: seq<Event>)
      requires Valid() && key in rowIndex
      modifies `rows, `ticks
      ensures Valid() && Step(Model(), events) == SetFields(old(Model()), key, fields, clock)
    {
      IndexedPos(rows, key);
      var i := rowIndex[key];
      var row;
      row, events := UpdateFields(rows[i], fields, clock(ticks));
      SameKeysAt(rows, i, row);
      rows := rows[i := row];
      ticks := ticks + 1;
    }

    /** `update_row` up to the publication. */
    method ChangeRow(key: string, fields: Fields) returns (events: seq<Event>)
      requires Valid()
      modifies `rows, `rowIndex, `columns, `columnIndex, `ticks
      ensures Valid() && Step(Model(), events) == TableModel.UpdateRow(old(Model()), key, fields, clock)
    {
      IndexedPos(rows, key);
      events := [];
      if key !in rowIndex {
        events := AddNewRow(key);
      }
      assert key in rowIndex;
      assert Step(Model(), events) == AddRow(old(Model()), key);
      var es := AddFieldColumns(Listing(fields.Keys));
      var last := SetRowFields(key, fields);
      events := events + es + last;
    }

    /** Publication when there is something to publish. */
    method PublishAny(events: seq<Event>, live: set<nat>)
      modifies `sent
      ensures sent == old(sent) + Broadcast(Messages(name, events), Existing(subscribers, live))
    {
      if events != [] {
        Publish(events, live);
      } else {
        PublishNothing(name, Existing(subscribers, live));
        assert sent + [] == sent;
      }
    }

    /** `update_row`. `live` are the sessions that exist when it publishes. */
    method UpdateRow(key: string, fields: Fields, live: set<nat>)
      requires Valid()
      modifies this
      ensures Valid()
      ensures After(name, clock, old(Abs()), Change(Update(key, fields), live)) == Some(Abs())
    {
      ghost var w := Abs();
      ghost var s := ChangeAndPublish(key, fields, live);
      AfterChange(name, clock, w, Update(key, fields), live, s, Abs());
    }

    /** `s` is what happens to the table. */
    method ChangeAndPublish(key: string, fields: Fields, live: set<nat>) returns (ghost s: Step)
      requires Valid()
      modifies `rows, `rowIndex, `columns, `columnIndex, `ticks, `sent
      ensures Valid() && s == TableModel.UpdateRow(old(Model()), key, fields, clock)
      ensures Model() == s.table && sent == old(sent) + Broadcast(Messages(name, s.events), Existing(subscribers, live))
    {
      var events := ChangeRow(key, fields);
      s := Step(Model(), events);
      PublishAny(events, live);
    }

    /** `add_columns`. */
    method AddColumns(cols: seq<string>, live: set<nat>)
      requires Valid()
      modifies this
      ensures Valid()
      ensures After(name, clock, old(Abs()), Change(Columns(cols), live)) == Some(Abs())
    {
      ghost var w := Abs();
      ghost var s := GrowAndPublish(cols, live);
      AfterChange(name, clock, w, Columns(cols), live, s, Abs());
    }

    method GrowAndPublish(cols: seq<string>, live: set<nat>) returns (ghost s: Step)
      requires Valid()
      modifies `rows, `columns, `columnIndex, `ticks, `sent
      ensures Valid() && s == TableModel.AddColumns(old(Model()), cols, clock)
      ensures Model() == s.table && sent == old(sent) + Broadcast(Messages(name, s.events), Existing(subscribers, live))
    {
      var events := AddEachColumn(cols);
      s := Step(Model(), events);
      PublishAny(events, live);
    }

    /** `clear_table`. */
    method Clear(live: set<nat>)
      requires Valid()
      modifies this
      ensures Valid()
      ensures After(name, clock, old(Abs()), Change(Op.Clear, live)) == Some(Abs())
    {
      ghost var w := Abs();
      ghost var s := ClearAndPublish(live);
      AfterChange(name, clock, w, Op.Clear, live, s, Abs());
    }

    method ClearAndPublish(live: set<nat>) returns (ghost s: Step)
      requires Valid()
      modifies `rows, `rowIndex, `sent
      ensures Valid() && s == TableModel.ClearTable(old(Model()))
      ensures Model() == s.table && sent == old(sent) + Broadcast(Messages(name, s.events), Existing(subscribers, live))
    {
      rows, rowIndex := [], map[];
      s := Step(Model(), [TableCleared]);
      Publish([TableCleared], live);
    }

    /** Erasing a row and repairing its index in place. */
    method EraseRow(key: string) returns (events: seq<Event>)
      requires Valid()
      modifies `rows, `rowIndex
      ensures Valid() && Step(Model(), events) == TableModel.DeleteRow(old(Model()), key)
    {
      IndexedPos(rows, key);
      events := [];
      if key in rowIndex {
        var i := rowIndex[key];
        ErasedKeys(rows, i);
        rowIndex := EraseFromIndex(rowIndex, key, RowKeys(rows));
        rows := rows[..i] + rows[i + 1..];
        events := [RowRemoved(key)];
      }
    }

    /** `delete_row`. */
    method DeleteRow(key: string, live: set<nat>)
      requires Valid()
      modifies this
      ensures Valid()
      ensures After(name, clock, old(Abs()), Change(Delete(key), live)) == Some(Abs())
    {
      ghost var w := Abs();
      ghost var s := EraseAndPublish(key, live);
      AfterChange(name, clock, w, Delete(key), live, s, Abs());
    }

    method EraseAndPublish(key: string, live: set<nat>) returns (ghost s: Step)
      requires Valid()
      modifies `rows, `rowIndex, `sent
      ensures Valid() && s == TableModel.DeleteRow(old(Model()), key)
      ensures Model() == s.table && sent == old(sent) + Broadcast(Messages(name, s.events), Existing(subscribers, live))
    {
      var events := EraseRow(key);
      s := Step(Model(), events);
      PublishAny(events, live);
    }

    /** `_nolock_send_snapshopt`: nothing is sent and nothing changes when it raises an error;
        otherwise the size the rows called for is kept for the next time. */
    method SendSnapshot(session: nat) returns (ok: bool, ghost cut: Cut, ghost out: seq<Delivery>)
      requires Valid()
      modifies `sent, `batchSize
      ensures Valid()
      ensures ok <==> AllFitAlone(name, ItemsOf(rows))
      ensures ok ==> GoodCut(name, rows, cut) && out == SendList(SnapshotMessages(name, cut), session)
      ensures ok ==> Full(cut, batchSize, old(batchSize), true) && Shrunk(name, ItemsOf(rows), old(batchSize), batchSize)
      ensures !ok ==> out == [] && batchSize == old(batchSize)
      ensures sent == old(sent) + out
    {
      var list, size;
      ok, list, size, cut := PrepareSnapshot(name, rows, batchSize, session);
      sent, batchSize, out := sent + list, size, list;
    }

    /** The first half of `add_subscriber`. */
    method Enlist(session: nat, descr: Message)
      requires Valid()
      modifies `subscribers, `sent
      ensures Valid() && subscribers == old(subscribers) + [session] && sent == old(sent) + [Delivery(session, descr)]
    {
      subscribers := subscribers + [session];
      sent := sent + [Delivery(session, descr)];
    }

    /** `add_subscriber`: listed first, then the table description and the snapshot, all in one
        step. `descr` is the description of the columns. */
    method AddSubscriber(session: nat, descr: Message) returns (ok: bool, ghost cut: Option<Cut>)
      requires Valid() && descr.mtype == "tabledescr"
      modifies this
      ensures Valid() && ok == cut.Some?
      ensures After(name, clock, old(Abs()), Subscribe(session, descr, cut)) == Some(Abs())
    {
      ghost var w := Abs();
      ghost var batches, out;
      ok, batches, out := EnlistAndSend(session, descr);
      cut := if ok then Some(batches) else None;
      AfterSubscribe(name, clock, w, session, descr, cut, out, Abs());
    }

    method EnlistAndSend(session: nat, descr: Message) returns (ok: bool, ghost cut: Cut, ghost out: seq<Delivery>)
      requires Valid()
      modifies `subscribers, `sent, `batchSize, `snapped
      ensures Valid() && subscribers == old(subscribers) + [session]
      ensures sent == old(sent) + [Delivery(session, descr)] + out
      ensures ok <==> AllFitAlone(name, ItemsOf(rows))
      ensures !ok ==> out == [] && snapped == old(snapped)
      ensures ok ==> GoodCut(name, rows, cut) && out == SendList(SnapshotMessages(name, cut), session)
      ensures ok ==> snapped == old(snapped) + {session}
    {
      Enlist(session, descr);
      ok, cut, out := SendSnapshot(session);
      if ok { snapped := snapped + {session}; }
    }

    /** The snapshot for the next subscriber; `out` is what the earlier ones were sent. */
    method SendNextSnapshot(subs: seq<nat>, i: nat, ghost cuts: seq<Cut>, ghost out: seq<Delivery>, ghost fits: bool)
      returns (ok: bool, ghost cuts': seq<Cut>, ghost more: seq<Delivery>)
      requires Valid() && i < |subs| && |cuts| == i && GoodCuts(name, rows, cuts) && out == Rounds(name, subs[..i], cuts)
      requires fits == AllFitAlone(name, ItemsOf(rows))
      modifies `sent, `batchSize
      ensures Valid() && ok == fits
      ensures !ok ==> sent == old(sent)
      ensures ok ==> |cuts'| == i + 1 && GoodCuts(name, rows, cuts')
      ensures ok ==> sent == old(sent) + more && Rounds(name, subs[..i + 1], cuts') == out + more
    {
      ghost var cut;
      ok, cut, more := SendSnapshot(subs[i]);
      cuts' := cuts + [cut];
      if ok { RoundsSnoc(name, rows, subs, cuts, cut, i, more); }
    }

    /** Snapshots for the given subscribers in turn, until one raises an error. */
    method SendSnapshots(subs: seq<nat>, ghost fits: bool) returns (ok: bool, ghost cuts: seq<Cut>)
      requires Valid() && fits == AllFitAlone(name, ItemsOf(rows))
      modifies `sent, `batchSize
      ensures Valid() && ok == (fits || subs == [])
      ensures ok ==> |cuts| == |subs| && sent == old(sent) + Rounds(name, subs, cuts)
      ensures ok ==> GoodCuts(name, rows, cuts)
      ensures !ok ==> sent == old(sent)
    {
      cuts, ok := [], true;
      ghost var out: seq<Delivery> := [];
      var i := 0;
      while i < |subs| && ok
        invariant i <= |subs| && Valid()
        invariant ok ==> |cuts| == i && GoodCuts(name, rows, cuts)
        invariant ok ==> sent == old(sent) + out && out == Rounds(name, subs[..i], cuts)
        invariant i > 0 ==> ok == fits
        invariant !ok ==> i > 0 && sent == old(sent)
        decreases |subs| - i
      {
        ghost var more;
        ok, cuts, more := SendNextSnapshot(subs, i, cuts, out, fits);
        Framing.ConcatAssociates(old(sent), out, more);
        out, i := out + more, i + 1;
      }
      assert subs[..|subs|] == subs;
    }

    /** `snapshot`: the subscribers that exist are copied before the table is locked. */
    method SnapshotToAll(live: set<nat>) returns (ok: bool, ghost subs: seq<nat>, ghost cuts: Option<seq<Cut>>)
      requires Valid()
      modifies this
      ensures Valid() && ok == cuts.Some? && subs == Existing(old(subscribers), live)
      ensures After(name, clock, old(Abs()), SnapshotAll(subs, cuts)) == Some(Abs())
    {
      var existing := CopySubscribers(subscribers, live);
      subs := existing;
      ExistingAreListed(subscribers, live);
      ok, cuts := SnapshotUnderLock(existing);
    }

    /** The part of `snapshot` under the table lock. The copy may be older than the list, which
        only grows. */
    method SnapshotUnderLock(subs: seq<nat>) returns (ok: bool, ghost cuts: Option<seq<Cut>>)
      requires Valid() && forall x :: x in subs ==> x in subscribers
      modifies this
      ensures Valid() && ok == cuts.Some?
      ensures After(name, clock, old(Abs()), SnapshotAll(subs, cuts)) == Some(Abs())
    {
      ghost var w := Abs();
      ghost var all;
      ok, all := SendToEach(subs);
      cuts := if ok then Some(all) else None;
      AfterSnapshotAll(name, clock, w, subs, cuts, Abs());
    }

    method SendToEach(subs: seq<nat>) returns (ok: bool, ghost cuts: seq<Cut>)
      requires Valid()
      modifies `sent, `batchSize, `snapped
      ensures Valid()
      ensures ok <==> AllFitAlone(name, ItemsOf(rows)) || subs == []
      ensures !ok ==> sent == old(sent) && snapped == old(snapped)
      ensures ok ==> |cuts| == |subs| && sent == old(sent) + Rounds(name, subs, cuts)
      ensures ok ==> GoodCuts(name, rows, cuts)
      ensures ok ==> snapped == old(snapped) + set s | s in subs
    {
      ok, cuts := SendSnapshots(subs, AllFitAlone(name, ItemsOf(rows)));
      if ok { snapped := snapped + set s | s in subs; }
    }
  }

  lemma {:induction false} ExistingAreListed(subs: seq<nat>, live: set<nat>)
    ensures forall x :: x in Existing(subs, live) ==> x in subs
  {
    if subs != [] { ExistingAreListed(subs[..|subs| - 1], live); }
  }

  lemma RoundsSnoc(name: string, rows: seq<Row>, subs: seq<nat>, cuts: seq<Cut>, cut: Cut, i: nat, more: seq<Delivery>)
    requires i < |subs| && |cuts| == i && GoodCuts(name, rows, cuts) && GoodCut(name, rows, cut)
    requires more == SendList(SnapshotMessages(name, cut), subs[i])
    ensures GoodCuts(name, rows, cuts + [cut])
    ensures Rounds(name, subs[..i + 1], cuts + [cut]) == Rounds(name, subs[..i], cuts) + more
  {
    assert subs[..i + 1][..i] == subs[..i];
    assert (cuts + [cut])[..i] == cuts;
  }

  lemma PublishNothing(name: string, subs: seq<nat>)
    ensures Broadcast(Messages(name, []), subs) == []
  {
  }

  lemma ErasedKeys(rows: seq<Row>, i: nat)
    requires i < |rows|
    ensures RowKeys(rows[..i] + rows[i + 1..]) == RowKeys(rows)[..i] + RowKeys(rows)[i + 1..]
  {
    var rest, keys := rows[..i] + rows[i + 1..], RowKeys(rows)[..i] + RowKeys(rows)[i + 1..];
    assert forall j :: 0 <= j < |rest| ==> RowKeys(rest)[j] == rest[j].key;
  }

  lemma OrdinaryStep(names: seq<string>, i: nat)
    requires i < |names|
    ensures Ordinary(names[..i + 1]) == if Reserved(names[i]) then Ordinary(names[..i]) else Ordinary(names[..i]) + [names[i]]
  {
    assert names[..i + 1][..i] == names[..i];
  }

  lemma AddColumnsSnoc(t: Table, cols: seq<string>, c: string, clock: Clock)
    ensures var s := TableModel.AddColumns(t, cols, clock);
      var l := AddColumn(s.table, c, clock);
      TableModel.AddColumns(t, cols + [c], clock) == Step(l.table, s.events + l.events)
  {
    assert (cols + [c])[..|cols|] == cols;
  }

  lemma SameKeysAt(rows: seq<Row>, i: nat, row: Row)
    requires i < |rows| && row.key == rows[i].key
    ensures RowKeys(rows[i := row]) == RowKeys(rows)
  {
    SameRowKeys(rows[i := row], rows);
  }

  lemma {:induction false} BroadcastToNobody(msgs: seq<Message>)
    ensures Broadcast(msgs, []) == []
  {
    if msgs != [] { BroadcastToNobody(msgs[..|msgs| - 1]); }
  }

  lemma KeysGrow(rows: seq<Row>, key: string)
    requires NoRepeats(RowKeys(rows)) && key !in RowKeys(rows)
    ensures var more := RowKeys(rows + [FreshRow(key)]);
      NoRepeats(more) && key in IndexOf(more)
  {
    var more := RowKeys(rows + [FreshRow(key)]);
    assert more == RowKeys(rows) + [key];
    assert more[..|rows|] == RowKeys(rows);
  }

  lemma {:induction false} InIndex(keys: seq<string>, key: string)
    ensures key in IndexOf(keys) <==> key in keys
  {
    if keys != [] {
      InIndex(keys[..|keys| - 1], key);
      assert keys == keys[..|keys| - 1] + [keys[|keys| - 1]];
    }
  }
}
