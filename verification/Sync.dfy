/** A subscriber's view agrees with the table after every run
    (libexio/Table.cc, libexio/TableEvents.cc). */
module Sync {
  import opened SamTree
  import opened TableModel
  import opened TableMessages
  import opened TableReplay
  import opened Snapshot
  import opened Publishing
  import opened Subscriber

  // ----- Agreement -----

  predicate MoreThanKey(r: Row) {
    exists n :: n in r.fields && n != ROW_KEY
  }

  predicate Part(f: Fields, g: Fields) {
    forall n :: n in f ==> n in g && f[n] == g[n]
  }

  function FieldsOf(rows: seq<Row>, key: string): Fields
    requires HasRow(rows, key)
  {
    rows[KeyPos(rows, key)].fields
  }

  /** The view may lack rows and fields, but what it holds is true. */
  predicate Behind(view: View, rows: seq<Row>) {
    forall k :: k in view ==> HasRow(rows, k) && Part(view[k], FieldsOf(rows, k))
  }

  /** Every row the view holds is exactly the table's, and it holds every row that has a field
      besides its key. */
  predicate Synced(view: View, rows: seq<Row>) {
    && (forall k :: k in view ==> HasRow(rows, k) && view[k] == FieldsOf(rows, k))
    && (forall i :: 0 <= i < |rows| && MoreThanKey(rows[i]) ==> rows[i].key in view)
  }

  /** The view holds every row that has a field besides its key, and every field of it; it may hold
      more. */
  predicate Includes(view: View, rows: seq<Row>) {
    forall i :: 0 <= i < |rows| && MoreThanKey(rows[i]) ==> Within(view, rows[i])
  }

  predicate Within(view: View, r: Row) {
    r.key in view && Part(r.fields, view[r.key])
  }

  predicate Keyed(rows: seq<Row>) {
    && DistinctKeys(rows)
    && forall i :: 0 <= i < |rows| ==> ROW_KEY in rows[i].fields && rows[i].fields[ROW_KEY] == rows[i].key
  }

  lemma SyncedIsBehind(view: View, rows: seq<Row>)
    requires Synced(view, rows)
    ensures Behind(view, rows)
  {
  }

  lemma KeyPosIs(rows: seq<Row>, i: nat)
    requires DistinctKeys(rows) && i < |rows|
    ensures KeyPos(rows, rows[i].key) == i
  {
  }

  lemma KeyPosSame(a: seq<Row>, b: seq<Row>, k: string)
    requires |a| == |b| && forall i :: 0 <= i < |a| ==> a[i].key == b[i].key
    ensures KeyPos(a, k) == KeyPos(b, k)
  {
    var i, j := KeyPos(a, k), KeyPos(b, k);
    if i < |a| { assert b[i].key == k; }
    if j < |b| { assert a[j].key == k; }
  }

  // ----- Events -----

  function Heard(view: View, name: string, e: Event): View {
    ReceiveAll(view, name, EventMessages(name, e))
  }

  lemma ReceiveOne(view: View, name: string, m: Message)
    ensures ReceiveAll(view, name, [m]) == Receive(view, name, m)
  {
    assert [m][..0] == [];
  }

  lemma UpdateHeard(view: View, name: string, key: string, fields: Fields)
    requires ROW_KEY !in fields
    ensures Receive(view, name, UpdateMessage(name, key, fields))
         == view[key := Known(view, key) + (map[ROW_KEY := key] + fields)]
  {
    var cells := UpdateItems(key, fields);
    UpdateEffect(view, name, [cells], []);
    assert [cells][..0] == [];
    assert AbsorbAll(view, [cells][..0]) == view;
    assert AbsorbAll(view, [cells]) == Absorb(view, cells);
    UpdateCells(key, fields);
  }

  lemma RemovalIgnored(view: View, name: string)
    ensures Receive(view, name, RowDelMessage(name)) == view
  {
    assert TABLE_ROW_DEL[5] == 'r' && TABLE_CLEAR[5] == 'c' && TABLE_UPDATE[5] == 'u';
  }

  lemma PatchKeepsKeyed(rows: seq<Row>, key: string, fields: Fields)
    requires Keyed(rows) && ROW_KEY !in fields
    ensures Keyed(Patched(rows, key, fields))
  {
    var p := Patched(rows, key, fields);
    forall i, j | 0 <= i < j < |p| ensures p[i].key != p[j].key {
      assert p[i].key == rows[i].key && p[j].key == rows[j].key;
    }
  }

  lemma PatchBehind(view: View, rows: seq<Row>, key: string, fields: Fields)
    requires Keyed(rows) && HasRow(rows, key) && ROW_KEY !in fields && Behind(view, rows)
    ensures Behind(view[key := Known(view, key) + (map[ROW_KEY := key] + fields)], Patched(rows, key, fields))
  {
    var p := Patched(rows, key, fields);
    var view' := view[key := Known(view, key) + (map[ROW_KEY := key] + fields)];
    forall k | k in view' ensures HasRow(p, k) && Part(view'[k], FieldsOf(p, k)) {
      KeyPosSame(rows, p, k);
      if k != key { assert Part(view[k], FieldsOf(rows, k)); }
    }
  }

  lemma PatchedFields(known: Fields, row: Row, fields: Fields)
    requires ROW_KEY in row.fields && row.fields[ROW_KEY] == row.key && ROW_KEY !in fields
    requires known == row.fields || (known == map[] && !MoreThanKey(row))
    ensures known + (map[ROW_KEY := row.key] + fields) == row.fields + fields
  {
  }

  lemma PatchSynced(view: View, rows: seq<Row>, key: string, fields: Fields)
    requires Keyed(rows) && HasRow(rows, key) && ROW_KEY !in fields && Synced(view, rows)
    ensures Synced(view[key := Known(view, key) + (map[ROW_KEY := key] + fields)], Patched(rows, key, fields))
  {
    PatchedFields(Known(view, key), rows[KeyPos(rows, key)], fields);
    PatchSyncedRows(view, rows, key, fields);
  }

  lemma PatchSyncedRows(view: View, rows: seq<Row>, key: string, fields: Fields)
    requires HasRow(rows, key) && Synced(view, rows)
    ensures Synced(view[key := FieldsOf(rows, key) + fields], Patched(rows, key, fields))
  {
    var p := Patched(rows, key, fields);
    var view' := view[key := FieldsOf(rows, key) + fields];
    forall k | k in view' ensures HasRow(p, k) && view'[k] == FieldsOf(p, k) {
      KeyPosSame(rows, p, k);
    }
    forall i | 0 <= i < |p| && MoreThanKey(p[i]) ensures p[i].key in view' {
      if p[i].key != key { assert p[i] == rows[i]; }
    }
  }

  lemma FreshRowKeeps(view: View, rows: seq<Row>, key: string)
    requires Keyed(rows) && !HasRow(rows, key)
    ensures Keyed(rows + [FreshRow(key)])
    ensures Behind(view, rows) ==> Behind(view, rows + [FreshRow(key)])
    ensures Synced(view, rows) ==> Synced(view, rows + [FreshRow(key)])
    ensures Includes(view, rows) ==> Includes(view, rows + [FreshRow(key)])
  {
    var more := rows + [FreshRow(key)];
    forall k | HasRow(rows, k) ensures KeyPos(more, k) == KeyPos(rows, k) {
      var i := KeyPos(rows, k);
      assert more[i] == rows[i];
      assert forall j :: 0 <= j < i ==> more[j] == rows[j];
    }
    assert !MoreThanKey(FreshRow(key));
  }

  lemma PatchIncludes(view: View, rows: seq<Row>, key: string, fields: Fields)
    requires Keyed(rows) && ROW_KEY !in fields && Includes(view, rows)
    ensures Includes(view[key := Known(view, key) + (map[ROW_KEY := key] + fields)], Patched(rows, key, fields))
  {
    var p := Patched(rows, key, fields);
    var view' := view[key := Known(view, key) + (map[ROW_KEY := key] + fields)];
    forall i | 0 <= i < |p| && MoreThanKey(p[i]) ensures Within(view', p[i]) {
      if rows[i].key != key {
        assert Within(view, rows[i]);
      } else if MoreThanKey(rows[i]) {
        assert Within(view, rows[i]);
      }
    }
  }

  lemma {:induction false} WithoutKeeps(view: View, rows: seq<Row>, key: string)
    requires Keyed(rows)
    ensures Keyed(Without(rows, key))
    ensures Includes(view, rows) ==> Includes(view, Without(rows, key))
  {
    WithoutIsCut(rows, key);
    var i, rest := KeyPos(rows, key), Without(rows, key);
    if i < |rows| {
      assert forall j :: 0 <= j < |rest| ==> rest[j] == rows[if j < i then j else j + 1];
    }
  }

  /** One event that makes sense, and what the subscriber hears of it. Only a removal can leave
      something stale behind. */
  lemma EventKeeps(view: View, name: string, c: Copy, e: Event)
    requires Keyed(c.rows) && SensibleEvent(c, e)
    ensures Keyed(Apply(c, e).rows)
    ensures Includes(view, c.rows) ==> Includes(Heard(view, name, e), Apply(c, e).rows)
    ensures Behind(view, c.rows) && !e.RowRemoved? ==> Behind(Heard(view, name, e), Apply(c, e).rows)
    ensures Synced(view, c.rows) && !e.RowRemoved? ==> Synced(Heard(view, name, e), Apply(c, e).rows)
  {
    match e
    case NewRow(key) => FreshRowKeeps(view, c.rows, key);
    case NewColumn(column) =>
    case RowMultiUpdate(key, fields) => UpdateKeeps(view, name, c, key, fields);
    case RowRemoved(key) =>
      ReceiveOne(view, name, RowDelMessage(name));
      RemovalIgnored(view, name);
      WithoutKeeps(view, c.rows, key);
    case TableCleared =>
      ReceiveOne(view, name, TableClear(name));
      ClearEffect(view, name);
  }

  lemma UpdateKeeps(view: View, name: string, c: Copy, key: string, fields: Fields)
    requires Keyed(c.rows) && SensibleEvent(c, RowMultiUpdate(key, fields))
    ensures var v, rows := Heard(view, name, RowMultiUpdate(key, fields)), Patched(c.rows, key, fields);
      && Keyed(rows)
      && (Includes(view, c.rows) ==> Includes(v, rows))
      && (Behind(view, c.rows) ==> Behind(v, rows))
      && (Synced(view, c.rows) ==> Synced(v, rows))
  {
    ReceiveOne(view, name, UpdateMessage(name, key, fields));
    UpdateHeard(view, name, key, fields);
    PatchKeepsKeyed(c.rows, key, fields);
    if Includes(view, c.rows) { PatchIncludes(view, c.rows, key, fields); }
    if Behind(view, c.rows) { PatchBehind(view, c.rows, key, fields); }
    if Synced(view, c.rows) { PatchSynced(view, c.rows, key, fields); }
  }

  lemma {:induction false} ReceiveConcat(view: View, name: string, a: seq<Message>, b: seq<Message>)
    ensures ReceiveAll(view, name, a + b) == ReceiveAll(ReceiveAll(view, name, a), name, b)
    decreases |b|
  {
    if b == [] {
      assert a + b == a;
    } else {
      var l := |b| - 1;
      assert (a + b)[..|a + b| - 1] == a + b[..l];
      ReceiveConcat(view, name, a, b[..l]);
    }
  }

  predicate NoRemoval(events: seq<Event>) {
    forall e :: e in events ==> !e.RowRemoved?
  }

  /** Hearing a sensible list of events keeps the view in step with their replay: it goes on to
      hold everything, and without removals it goes on to hold nothing else. */
  lemma {:induction false} EventsKeep(view: View, name: string, c: Copy, events: seq<Event>)
    requires Keyed(c.rows) && Sensible(c, events)
    ensures var v := ReceiveAll(view, name, Messages(name, events));
      && Keyed(Replay(c, events).rows)
      && (Includes(view, c.rows) ==> Includes(v, Replay(c, events).rows))
      && (Behind(view, c.rows) && NoRemoval(events) ==> Behind(v, Replay(c, events).rows))
      && (Synced(view, c.rows) && NoRemoval(events) ==> Synced(v, Replay(c, events).rows))
  {
    if events != [] {
      var front, e := events[..|events| - 1], events[|events| - 1];
      EventsKeep(view, name, c, front);
      var v := ReceiveAll(view, name, Messages(name, front));
      EventKeeps(v, name, Replay(c, front), e);
      ReceiveConcat(view, name, Messages(name, front), EventMessages(name, e));
    }
  }

  // ----- Snapshots -----

  lemma {:induction false} AbsorbConcat(view: View, a: seq<Cells>, b: seq<Cells>)
    ensures AbsorbAll(view, a + b) == AbsorbAll(AbsorbAll(view, a), b)
    decreases |b|
  {
    if b == [] {
      assert a + b == a;
    } else {
      var l := |b| - 1;
      assert (a + b)[..|a + b| - 1] == a + b[..l];
      AbsorbConcat(view, a, b[..l]);
    }
  }

  /** Receiving a snapshot is absorbing its rows, whatever batches they came in. */
  lemma {:induction false} SnapshotEffect(view: View, name: string, cut: Cut, k: nat, n: nat)
    requires GoodBatches(name, cut) && k <= |cut|
    ensures ReceiveAll(view, name, SomeMessages(name, cut, k, n)) == AbsorbAll(view, Joined(cut[..k]))
  {
    if k > 0 {
      var j := k - 1;
      SnapshotEffect(view, name, cut, j, n);
      JoinedStep(cut, j);
      GoodBatch(name, cut, j);
      FewRows(name, cut[j]);
      UpdateEffect(AbsorbAll(view, Joined(cut[..j])), name, cut[j], SnapFields(j, n));
      AbsorbConcat(view, Joined(cut[..j]), cut[j]);
      LastReceived(view, name, SomeMessages(name, cut, j, n), TableUpdate(name, cut[j], SnapFields(j, n)));
    }
  }

  lemma LastReceived(view: View, name: string, msgs: seq<Message>, m: Message)
    ensures ReceiveAll(view, name, msgs + [m]) == Receive(ReceiveAll(view, name, msgs), name, m)
  {
    ReceiveConcat(view, name, msgs, [m]);
    ReceiveOne(ReceiveAll(view, name, msgs), name, m);
  }

  lemma JoinedStep(cut: Cut, j: nat)
    requires j < |cut|
    ensures Joined(cut[..j + 1]) == Joined(cut[..j]) + cut[j]
  {
    assert cut[..j + 1][..j] == cut[..j];
  }

  lemma SnapshotIsRows(view: View, name: string, rows: seq<Row>, cut: Cut)
    requires GoodCut(name, rows, cut)
    ensures ReceiveAll(view, name, SnapshotMessages(name, cut)) == AbsorbAll(view, ItemsOf(rows))
  {
    SnapshotEffect(view, name, cut, |cut|, |cut|);
    assert cut[..|cut|] == cut;
  }

  /** The first k rows are in the view, exactly. */
  predicate Caught(view: View, rows: seq<Row>, k: nat)
    requires k <= |rows|
  {
    Behind(view, rows) && forall i :: 0 <= i < k ==> rows[i].key in view && view[rows[i].key] == rows[i].fields
  }

  lemma AbsorbedRow(view: View, r: Row)
    requires ROW_KEY in r.fields && r.fields[ROW_KEY] == r.key
    ensures Absorb(view, RowItems(r)) == view[r.key := Known(view, r.key) + r.fields]
  {
    RowCells(r);
  }

  lemma WholeRowWins(view: View, rows: seq<Row>, k: nat)
    requires DistinctKeys(rows) && k < |rows| && Behind(view, rows)
    ensures Known(view, rows[k].key) + rows[k].fields == rows[k].fields
    ensures Behind(view[rows[k].key := rows[k].fields], rows)
  {
    KeyPosIs(rows, k);
    if rows[k].key in view { assert Part(view[rows[k].key], FieldsOf(rows, rows[k].key)); }
  }

  lemma CatchOne(view: View, rows: seq<Row>, k: nat, cells: seq<Cells>) returns (v: View)
    requires Keyed(rows) && k < |rows| && Caught(view, rows, k) && Rendered(cells, rows)
    ensures v == Absorb(view, cells[k]) && Caught(v, rows, k + 1)
  {
    v := Absorb(view, cells[k]);
    RenderedAt(cells, rows, k);
    AbsorbedRow(view, rows[k]);
    WholeRowWins(view, rows, k);
  }

  lemma AbsorbStep(view: View, cells: seq<Cells>, j: nat)
    requires j < |cells|
    ensures AbsorbAll(view, cells[..j + 1]) == Absorb(AbsorbAll(view, cells[..j]), cells[j])
  {
    assert cells[..j + 1][..j] == cells[..j];
  }

  lemma {:induction false} CatchUp(view: View, rows: seq<Row>, cells: seq<Cells>, k: nat) returns (v: View)
    requires Keyed(rows) && Behind(view, rows) && k <= |rows| && Rendered(cells, rows)
    ensures v == AbsorbAll(view, cells[..k]) && Caught(v, rows, k)
  {
    if k == 0 {
      v := view;
    } else {
      var u := CatchUp(view, rows, cells, k - 1);
      v := CatchOne(u, rows, k - 1, cells);
      AbsorbStep(view, cells, k - 1);
    }
  }

  lemma CaughtIsSynced(view: View, rows: seq<Row>)
    requires Keyed(rows) && Caught(view, rows, |rows|)
    ensures Synced(view, rows)
  {
    forall k | k in view ensures HasRow(rows, k) && view[k] == FieldsOf(rows, k) {
      var i := KeyPos(rows, k);
      assert rows[i].key in view;
    }
  }

  /** A whole snapshot brings any view that is merely behind into agreement. */
  lemma SnapshotSyncs(view: View, name: string, rows: seq<Row>, cut: Cut)
    requires Keyed(rows) && Behind(view, rows) && GoodCut(name, rows, cut)
    ensures Synced(ReceiveAll(view, name, SnapshotMessages(name, cut)), rows)
  {
    SnapshotIsRows(view, name, rows, cut);
    ItemsAreRendered(rows);
    RenderedSyncs(view, rows, ItemsOf(rows));
  }

  lemma RenderedSyncs(view: View, rows: seq<Row>, cells: seq<Cells>)
    requires Keyed(rows) && Behind(view, rows) && Rendered(cells, rows)
    ensures Synced(AbsorbAll(view, cells), rows)
  {
    var v := CatchUp(view, rows, cells, |rows|);
    assert cells[..|rows|] == cells;
    CaughtIsSynced(v, rows);
  }

  /** The first k rows are in the view with all their fields, whatever else it holds. */
  predicate Taken(view: View, rows: seq<Row>, k: nat)
    requires k <= |rows|
  {
    forall i :: 0 <= i < k ==> Within(view, rows[i])
  }

  lemma TakeOne(view: View, rows: seq<Row>, k: nat, cells: seq<Cells>) returns (v: View)
    requires Keyed(rows) && k < |rows| && Taken(view, rows, k) && Rendered(cells, rows)
    ensures v == Absorb(view, cells[k]) && Taken(v, rows, k + 1)
  {
    v := Absorb(view, cells[k]);
    RenderedAt(cells, rows, k);
    AbsorbedRow(view, rows[k]);
    forall i | 0 <= i < k + 1 ensures Within(v, rows[i]) {
      if i < k { assert Within(view, rows[i]) && rows[i].key != rows[k].key; }
    }
  }

  lemma {:induction false} TakeAllRows(view: View, rows: seq<Row>, cells: seq<Cells>, k: nat) returns (v: View)
    requires Keyed(rows) && k <= |rows| && Rendered(cells, rows)
    ensures v == AbsorbAll(view, cells[..k]) && Taken(v, rows, k)
  {
    if k == 0 {
      v := view;
    } else {
      var u := TakeAllRows(view, rows, cells, k - 1);
      v := TakeOne(u, rows, k - 1, cells);
      AbsorbStep(view, cells, k - 1);
    }
  }

  /** A whole snapshot puts everything into any view, however stale. */
  lemma SnapshotIncludes(view: View, name: string, rows: seq<Row>, cut: Cut)
    requires Keyed(rows) && GoodCut(name, rows, cut)
    ensures Includes(ReceiveAll(view, name, SnapshotMessages(name, cut)), rows)
  {
    SnapshotIsRows(view, name, rows, cut);
    ItemsAreRendered(rows);
    RenderedIncludes(view, rows, ItemsOf(rows));
  }

  lemma RenderedIncludes(view: View, rows: seq<Row>, cells: seq<Cells>)
    requires Keyed(rows) && Rendered(cells, rows)
    ensures Includes(AbsorbAll(view, cells), rows)
  {
    var v := TakeAllRows(view, rows, cells, |rows|);
    assert cells[..|rows|] == cells;
  }
}
