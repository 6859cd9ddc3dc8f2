/** A subscriber that folds the messages it receives into a map of rows, and why that map
    agrees with the table (libexio/Table.cc, libexio/TableEvents.cc, src/admin.cc). */
module Subscriber {
  import opened KeyOrder
  import opened SamTree
  import opened SamCodec
  import opened TableModel
  import opened TableMessages
  import opened Snapshot

  type View = map<string, Fields>

  // ----- The fold -----

  /** The fields of a container, by name. */
  function AsMap(items: seq<Item>): Fields {
    if items == [] then map[]
    else if items[0].Field? then AsMap(items[1..])[items[0].name := items[0].value]
    else AsMap(items[1..])
  }

  function Known(view: View, key: string): Fields {
    if key in view then view[key] else map[]
  }

  /** A row joins the fields already known under its key. */
  function Absorb(view: View, cells: Cells): View {
    match FieldVal(cells, ROW_KEY)
    case None => view
    case Some(key) => view[key := Known(view, key) + AsMap(cells)]
  }

  /** The rows row_0 .. row_(n-1) of a message body. */
  function TakeRows(view: View, body: seq<Item>, n: nat): View {
    if n == 0 then view
    else
      var v := TakeRows(view, body, n - 1);
      match Child(body, RowName(n - 1))
      case None => v
      case Some(cells) => Absorb(v, cells)
  }

  function RowCount(body: seq<Item>): nat {
    match FieldVal(body, "rows")
    case None => 0
    case Some(v) => Number(v)
  }

  function Receive(view: View, name: string, m: Message): View {
    if FindField(m.items, ["head", "tablename"]) != Some(name) then view
    else if m.mtype == TABLE_CLEAR then map[]
    else if m.mtype == TABLE_UPDATE then
      var body := Kids(m.items, "body");
      TakeRows(view, body, RowCount(body))
    else view
  }

  function ReceiveAll(view: View, name: string, msgs: seq<Message>): View {
    if msgs == [] then view else Receive(ReceiveAll(view, name, msgs[..|msgs| - 1]), name, msgs[|msgs| - 1])
  }

  function AbsorbAll(view: View, rows: seq<Cells>): View {
    if rows == [] then view else Absorb(AbsorbAll(view, rows[..|rows| - 1]), rows[|rows| - 1])
  }

  // ----- What one message does to the view -----

  lemma {:induction false} AsMapLookup(items: seq<Item>, n: string)
    ensures n in AsMap(items) <==> FieldVal(items, n).Some?
    ensures n in AsMap(items) ==> AsMap(items)[n] == FieldVal(items, n).value
  {
    if items != [] { AsMapLookup(items[1..], n); }
  }

  lemma {:induction false} PutAllLookup(items: seq<Item>, names: seq<string>, fields: Fields, n: string)
    requires forall k :: k in names ==> k in fields
    ensures FieldVal(PutAll(items, names, fields), n) == if n in names then Some(fields[n]) else FieldVal(items, n)
  {
    if names != [] {
      var l := |names| - 1;
      PutAllLookup(items, names[..l], fields, n);
      PutFieldLookup(PutAll(items, names[..l], fields), names[l], fields[names[l]], n);
      assert names == names[..l] + [names[l]];
    }
  }

  lemma AsMapIs(items: seq<Item>, goal: Fields)
    requires forall n :: FieldVal(items, n) == if n in goal then Some(goal[n]) else None
    ensures AsMap(items) == goal
  {
    forall n ensures n in AsMap(items) <==> n in goal {
      AsMapLookup(items, n);
    }
    forall n | n in goal ensures AsMap(items)[n] == goal[n] {
      AsMapLookup(items, n);
    }
  }

  lemma RowCells(r: Row)
    ensures AsMap(RowItems(r)) == r.fields
    ensures FieldVal(RowItems(r), ROW_KEY) == if ROW_KEY in r.fields then Some(r.fields[ROW_KEY]) else None
  {
    forall n ensures FieldVal(RowItems(r), n) == if n in r.fields then Some(r.fields[n]) else None {
      PutAllLookup([], Listing(r.fields.Keys), r.fields, n);
    }
    AsMapIs(RowItems(r), r.fields);
  }

  lemma UpdateCells(key: string, fields: Fields)
    requires ROW_KEY !in fields
    ensures AsMap(UpdateItems(key, fields)) == map[ROW_KEY := key] + fields
    ensures FieldVal(UpdateItems(key, fields), ROW_KEY) == Some(key)
  {
    var goal := map[ROW_KEY := key] + fields;
    forall n ensures FieldVal(UpdateItems(key, fields), n) == if n in goal then Some(goal[n]) else None {
      PutAllLookup([Field(ROW_KEY, key)], Listing(fields.Keys), fields, n);
    }
    AsMapIs(UpdateItems(key, fields), goal);
  }

  lemma {:induction false} TakeRowsIsAbsorbAll(view: View, rows: seq<Cells>, k: nat)
    requires k <= |rows|
    ensures TakeRows(view, BodyItems(rows), k) == AbsorbAll(view, rows[..k])
  {
    if k > 0 {
      TakeRowsIsAbsorbAll(view, rows, k - 1);
      RowIsFound(rows, k - 1);
      assert rows[..k][..k - 1] == rows[..k - 1];
    }
  }

  lemma RowIsFound(rows: seq<Cells>, i: nat)
    requires i < |rows|
    ensures Child(BodyItems(rows), RowName(i)) == Some(rows[i])
  {
    var b := BodyItems(rows);
    assert b[i + 1] == RowNodes(rows)[i];
    forall k | 0 <= k < i + 1 ensures !IsNode(b[k], RowName(i)) {
      if k > 0 {
        assert b[k] == RowNodes(rows)[k - 1];
        RowNamesDiffer(k - 1, i);
      }
    }
    assert NodePos(b, RowName(i)) == i + 1;
  }

  lemma NameIsFound(items: seq<Item>, head: seq<Item>, i: nat, name: string)
    requires items != [] && items[0] == Node("head", head)
    requires i < |head| && FieldPos(head, "tablename") == i && head[i] == Field("tablename", name)
    ensures FindField(items, ["head", "tablename"]) == Some(name)
  {
    assert ["head", "tablename"][1..] == ["tablename"];
    assert NodePos(items, "head") == 0;
    assert FindField(head, ["tablename"]) == Some(name);
  }

  /** Receiving an update message is absorbing its rows in order, as long as their number fits
      in an int. */
  lemma UpdateEffect(view: View, name: string, rows: seq<Cells>, extra: seq<Item>)
    requires |rows| < 0x8000_0000
    ensures Receive(view, name, TableUpdate(name, rows, extra)) == AbsorbAll(view, rows)
  {
    var body := BodyItems(rows);
    UpdateHead(name, rows, extra);
    CountIsFound(rows);
    TakeRowsIsAbsorbAll(view, rows, |rows|);
    assert rows[..|rows|] == rows;
  }

  lemma UpdateHead(name: string, rows: seq<Cells>, extra: seq<Item>)
    ensures var m := TableUpdate(name, rows, extra);
      FindField(m.items, ["head", "tablename"]) == Some(name) && Kids(m.items, "body") == BodyItems(rows)
  {
    var head := HeadItems(name) + extra;
    assert FieldPos(head, "tablename") == 0;
    NameIsFound(TableUpdate(name, rows, extra).items, head, 0, name);
    Sections(head, BodyItems(rows));
  }

  lemma CountIsFound(rows: seq<Cells>)
    requires |rows| < 0x8000_0000
    ensures RowCount(BodyItems(rows)) == |rows|
    ensures TABLE_UPDATE != TABLE_CLEAR
  {
    BodyCounts(rows);
    ToStrSmall(|rows|);
    NumberOfDec(|rows|);
    assert TABLE_UPDATE[5] == 'u' && TABLE_CLEAR[5] == 'c';
  }

  lemma ClearEffect(view: View, name: string)
    ensures Receive(view, name, TableClear(name)) == map[]
  {
    var head := [Field("msgtype", TABLE_CLEAR), Field("tablename", name)];
    NamesDiffer();
    assert FieldPos(head, "tablename") == 1 by { assert head[1..] == [Field("tablename", name)]; }
    NameIsFound(TableClear(name).items, head, 1, name);
  }
}
