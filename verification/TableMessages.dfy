/** The messages a table publishes: row updates, the clear notice and snapshot batches
    (libexio/Table.cc, libexio/TableEvents.cc, libexio/TableSerialiser.cc). */
module TableMessages {
  import opened KeyOrder
  import opened SamText
  import opened SamTree
  import opened TableModel

  const TABLE_UPDATE := "tableupdate"
  const TABLE_CLEAR := "tableclear"
  const TABLE_ROW_DEL := "tablerowdel"

  // ----- The shape of an update message -----

  function RowName(i: nat): string {
    "row_" + Dec(i)
  }

  function RowNodes(rows: seq<seq<Item>>): (r: seq<Item>)
    ensures |r| == |rows|
    ensures forall i :: 0 <= i < |rows| ==> r[i] == Node(RowName(i), rows[i])
  {
    if rows == [] then []
    else RowNodes(rows[..|rows| - 1]) + [Node(RowName(|rows| - 1), rows[|rows| - 1])]
  }

  function HeadItems(name: string): seq<Item> {
    [Field("tablename", name), Field("msgtype", TABLE_UPDATE)]
  }

  function BodyItems(rows: seq<seq<Item>>): seq<Item> {
    [Field("rows", ToStr(|rows|))] + RowNodes(rows)
  }

  /** A message that carries the given rows; `extra` are further head fields. */
  function TableUpdate(name: string, rows: seq<seq<Item>>, extra: seq<Item>): Message {
    Message(TABLE_UPDATE, [Node("head", HeadItems(name) + extra), Node("body", BodyItems(rows))])
  }

  function TableClear(name: string): Message {
    Message(TABLE_CLEAR, [Node("head", [Field("msgtype", TABLE_CLEAR), Field("tablename", name)])])
  }

  /** put_field for each name in turn. */
  function PutAll(items: seq<Item>, names: seq<string>, fields: Fields): seq<Item>
    requires forall n :: n in names ==> n in fields
  {
    if names == [] then items
    else
      var l := names[|names| - 1];
      PutField(PutAll(items, names[..|names| - 1], fields), l, fields[l])
  }

  function RowItems(r: Row): seq<Item> {
    PutAll([], Listing(r.fields.Keys), r.fields)
  }

  function UpdateItems(key: string, fields: Fields): seq<Item> {
    PutAll([Field(ROW_KEY, key)], Listing(fields.Keys), fields)
  }

  function UpdateMessage(name: string, key: string, fields: Fields): Message {
    TableUpdate(name, [UpdateItems(key, fields)], [])
  }

  function ItemsOf(rows: seq<Row>): (r: seq<seq<Item>>)
    ensures |r| == |rows|
  {
    if rows == [] then [] else [RowItems(rows[0])] + ItemsOf(rows[1..])
  }

  // ----- Numbers in names -----

  /** The number a digit string writes; anything else counts as zero. */
  function Number(s: string): nat {
    if s == [] || !IsDigit(s[|s| - 1]) then 0 else 10 * Number(s[..|s| - 1]) + DigitValue(s[|s| - 1])
  }

  lemma SmallRemainder(n: nat, m: nat)
    requires n < m
    ensures n % m == n
  {
  }

  lemma ToStrSmall(n: nat)
    requires n < 0x8000_0000
    ensures ToStr(n) == Dec(n)
  {
    assert n % 0x1_0000_0000 == n by { SmallRemainder(n, 0x1_0000_0000); }
    assert ToInt32(n) == n;
  }

  lemma {:induction false} NumberOfDec(n: nat)
    ensures Number(Dec(n)) == n
  {
    DigitInverse(n % 10);
    if n >= 10 {
      NumberOfDec(n / 10);
      assert Dec(n)[..|Dec(n)| - 1] == Dec(n / 10);
    } else {
      assert Number([]) == 0;
      assert Dec(n)[..0] == [];
    }
  }

  lemma RowNamesDiffer(i: nat, j: nat)
    ensures RowName(i) == RowName(j) <==> i == j
  {
    NumberOfDec(i);
    NumberOfDec(j);
    assert RowName(i)[4..] == Dec(i) && RowName(j)[4..] == Dec(j);
  }

  // ----- Writing the messages -----

  /** The number of child containers. */
  function CountNodes(items: seq<Item>): (n: nat) {
    if items == [] then 0 else (if items[0].Node? then 1 else 0) + CountNodes(items[1..])
  }

  lemma {:induction false} CountRowNodes(items: seq<Item>)
    requires forall it :: it in items ==> it.Node?
    ensures CountNodes(items) == |items|
  {
    if items != [] { CountRowNodes(items[1..]); }
  }

  lemma BodyCounts(rows: seq<seq<Item>>)
    ensures CountNodes(BodyItems(rows)) == |rows|
    ensures NodePos(BodyItems(rows), RowName(|rows|)) == |BodyItems(rows)|
    ensures FieldPos(BodyItems(rows), "rows") == 0
  {
    var b := BodyItems(rows);
    assert b[1..] == RowNodes(rows);
    CountRowNodes(RowNodes(rows));
    forall k | 0 <= k < |b| ensures !IsNode(b[k], RowName(|rows|)) {
      if k > 0 { RowNamesDiffer(k - 1, |rows|); }
    }
  }

  /** The two containers of an update message are where the code looks for them. */
  lemma Sections(head: seq<Item>, body: seq<Item>)
    ensures var items := [Node("head", head), Node("body", body)];
      NodePos(items, "head") == 0 && NodePos(items, "body") == 1
  {
    var items := [Node("head", head), Node("body", body)];
    assert items[1..] == [Node("body", body)];
    assert items[0].name[0] == 'h' && items[1].name[0] == 'b';
  }

  lemma HeadNames(name: string)
    ensures FieldPos(HeadItems(name), "tablename") == 0
    ensures FieldPos(HeadItems(name), "msgtype") == 1
    ensures FieldPos(HeadItems(name), "snapi") == 2 && FieldPos(HeadItems(name), "snapn") == 2
    ensures forall v :: FieldPos(HeadItems(name) + [Field("snapi", v)], "snapn") == 3
  {
    var h := HeadItems(name);
    assert h[0].name[0] == 't' && h[1].name[0] == 'm' && "snapi"[4] == 'i' && "snapn"[4] == 'n';
    forall v ensures FieldPos(h + [Field("snapi", v)], "snapn") == 3 {
      var g := h + [Field("snapi", v)];
      assert forall k :: 0 <= k < 3 ==> !IsField(g[k], "snapn");
    }
  }

  lemma PutPathTwo(items: seq<Item>, a: string, b: string, v: string)
    ensures PutPath(items, [a, b], v) == PutKids(items, a, PutField(Kids(items, a), b, v))
  {
    assert [a, b][1..] == [b];
    assert PutPath(Kids(items, a), [b], v) == PutField(Kids(items, a), b, v);
  }

  lemma PutHead(head: seq<Item>, body: seq<Item>, n: string, v: string)
    ensures PutPath([Node("head", head), Node("body", body)], ["head", n], v)
         == [Node("head", PutField(head, n, v)), Node("body", body)]
  {
    Sections(head, body);
    PutPathTwo([Node("head", head), Node("body", body)], "head", n, v);
  }

  lemma FirstPath(a: string, b: string, v: string)
    ensures PutPath([], [a, b], v) == [Node(a, [Field(b, v)])]
  {
    PutPathTwo([], a, b, v);
    assert Kids([], a) == [] && PutField([], b, v) == [Field(b, v)];
  }

  lemma SecondHeadField(n: string, v: string, n': string, v': string)
    requires n != n'
    ensures PutPath([Node("head", [Field(n, v)])], ["head", n'], v') == [Node("head", [Field(n, v), Field(n', v')])]
  {
    var items := [Node("head", [Field(n, v)])];
    PutPathTwo(items, "head", n', v');
    AfterField(n, v, n', v');
    assert Kids(items, "head") == [Field(n, v)];
  }

  lemma AfterField(n: string, v: string, n': string, v': string)
    requires n != n'
    ensures PutField([Field(n, v)], n', v') == [Field(n, v), Field(n', v')]
  {
    assert FieldPos([Field(n, v)], n') == 1;
  }

  lemma BodyAfterHead(head: seq<Item>, body: seq<Item>)
    ensures PutKids([Node("head", head)], "body", body) == [Node("head", head), Node("body", body)]
    ensures Kids([Node("head", head)], "body") == []
  {
    assert "head"[0] == 'h' && "body"[0] == 'b';
    assert NodePos([Node("head", head)], "body") == 1;
  }

  lemma SecondPath(head: seq<Item>, n: string, v: string)
    ensures PutPath([Node("head", head)], ["body", n], v) == [Node("head", head), Node("body", [Field(n, v)])]
  {
    PutPathTwo([Node("head", head)], "body", n, v);
    BodyAfterHead(head, [Field(n, v)]);
    assert PutField([], n, v) == [Field(n, v)];
  }

  lemma NamesDiffer()
    ensures "tablename" != "msgtype"
  {
    assert "tablename"[0] == 't' && "msgtype"[0] == 'm';
  }

  /** `SnapshotSerialiser` and `set_table_name`: an update message without rows. */
  method StartSnapshot(name: string) returns (m: Message)
    ensures m == TableUpdate(name, [], [])
  {
    var items := PutPath([], ["head", "tablename"], "");
    FirstPath("head", "tablename", "");
    ghost var h, b := [Field("tablename", "")], [Field("rows", "0")];
    SecondPath(h, "rows", "0");
    items := PutPath(items, ["body", "rows"], "0");
    NamesDiffer();
    PutHead(h, b, "msgtype", TABLE_UPDATE);
    AfterField("tablename", "", "msgtype", TABLE_UPDATE);
    items := PutPath(items, ["head", "msgtype"], TABLE_UPDATE);
    PutHead(HeadItems(""), b, "tablename", name);
    HeadNames("");
    items := PutPath(items, ["head", "tablename"], name);
    EmptyUpdate(name);
    m := Message(TABLE_UPDATE, items);
  }

  lemma EmptyUpdate(name: string)
    ensures TableUpdate(name, [], []) == Message(TABLE_UPDATE, [Node("head", HeadItems("")[0 := Field("tablename", name)]), Node("body", [Field("rows", "0")])])
  {
    assert HeadItems("")[0 := Field("tablename", name)] == HeadItems(name) + [];
    assert ToStr(0) == "0";
    assert BodyItems([]) == [Field("rows", "0")];
  }

  lemma {:induction false} PutAllStep(items: seq<Item>, names: seq<string>, i: nat, fields: Fields)
    requires forall n :: n in names ==> n in fields
    requires i < |names|
    ensures PutAll(items, names[..i + 1], fields) == PutField(PutAll(items, names[..i], fields), names[i], fields[names[i]])
  {
    assert names[..i + 1][..i] == names[..i];
  }

  /** A walk over an ordered field map with a put_field for each entry. */
  method PutFields(items: seq<Item>, fields: Fields) returns (r: seq<Item>)
    ensures r == PutAll(items, Listing(fields.Keys), fields)
  {
    var names := Listing(fields.Keys);
    r := items;
    var i := 0;
    while i < |names|
      invariant i <= |names| && r == PutAll(items, names[..i], fields)
    {
      PutAllStep(items, names, i, fields);
      r := PutField(r, names[i], fields[names[i]]);
      i := i + 1;
    }
    assert names[..i] == names;
  }

  lemma RowNodesGrow(rows: seq<seq<Item>>, kids: seq<Item>)
    ensures RowNodes(rows + [kids]) == RowNodes(rows) + [Node(RowName(|rows|), kids)]
  {
    assert (rows + [kids])[..|rows|] == rows;
  }

  lemma FirstReplaced<T>(x: T, y: T, a: seq<T>, z: T)
    ensures ([x] + a + [z])[0 := y] == [y] + (a + [z])
  {
  }

  lemma PutFirst(items: seq<Item>, n: string, v: string)
    requires items != [] && IsField(items[0], n)
    ensures PutField(items, n, v) == items[0 := Field(n, v)]
  {
  }

  /** The body before and after one more row. */
  lemma GrownBody(rows: seq<seq<Item>>, kids: seq<Item>)
    ensures PutField(PutKids(BodyItems(rows), RowName(|rows|), kids), "rows", ToStr(|rows| + 1)) == BodyItems(rows + [kids])
  {
    BodyCounts(rows);
    var last := Node(RowName(|rows|), kids);
    PutFirst(BodyItems(rows) + [last], "rows", ToStr(|rows| + 1));
    FirstReplaced(Field("rows", ToStr(|rows|)), Field("rows", ToStr(|rows| + 1)), RowNodes(rows), last);
    RowNodesGrow(rows, kids);
  }

  /** `SnapshotSerialiser::add_row`: the row's name comes from counting the containers. */
  method AddSnapshotRow(m: Message, row: Row, ghost name: string, ghost rows: seq<seq<Item>>) returns (r: Message)
    requires m == TableUpdate(name, rows, [])
    ensures r == TableUpdate(name, rows + [RowItems(row)], [])
  {
    Sections(HeadItems(name) + [], BodyItems(rows));
    var body := Kids(m.items, "body");
    BodyCounts(rows);
    var n := CountNodes(body);
    var kids := PutFields(Kids(body, RowName(n)), row.fields);
    body := PutKids(body, RowName(n), kids);
    body := PutField(body, "rows", ToStr(n + 1));
    GrownBody(rows, kids);
    r := m.(items := PutKids(m.items, "body", body));
  }

  function SnapFields(i: int, n: int): seq<Item> {
    [Field("snapi", ToStr(i)), Field("snapn", ToStr(n))]
  }

  /** Numbering a queued snapshot message adds two head fields and leaves the rest alone. */
  method NumberSnapshot(m: Message, i: int, n: int, ghost name: string, ghost rows: seq<seq<Item>>) returns (r: Message)
    requires m == TableUpdate(name, rows, [])
    ensures r == TableUpdate(name, rows, SnapFields(i, n))
  {
    ghost var h, b := HeadItems(name), BodyItems(rows);
    assert h + [] == h;
    HeadNames(name);
    PutHead(h, b, "snapi", ToStr(i));
    var items := PutPath(m.items, ["head", "snapi"], ToStr(i));
    PutHead(h + [Field("snapi", ToStr(i))], b, "snapn", ToStr(n));
    items := PutPath(items, ["head", "snapn"], ToStr(n));
    assert h + [Field("snapi", ToStr(i))] + [Field("snapn", ToStr(n))] == h + SnapFields(i, n);
    r := m.(items := items);
  }

  /** `RowMultiUpdate::serialise`: one row, its key first. */
  method SerialiseUpdate(name: string, key: string, fields: Fields) returns (m: Message)
    ensures m == UpdateMessage(name, key, fields)
  {
    var items := PutPath([], ["head", "tablename"], name);
    FirstPath("head", "tablename", name);
    NamesDiffer();
    SecondHeadField("tablename", name, "msgtype", TABLE_UPDATE);
    items := PutPath(items, ["head", "msgtype"], TABLE_UPDATE);
    var body := PutField([], "rows", "1");
    var row := PutField([], ROW_KEY, key);
    assert row == [Field(ROW_KEY, key)];
    row := PutFields(row, fields);
    body := PutKids(body, RowName(0), row);
    OneRowBody(row);
    BodyAfterHead(HeadItems(name), body);
    items := PutKids(items, "body", body);
    assert HeadItems(name) + [] == HeadItems(name);
    m := Message(TABLE_UPDATE, items);
  }

  lemma OneRowBody(row: seq<Item>)
    ensures PutKids(PutField([], "rows", "1"), RowName(0), row) == BodyItems([row])
  {
    var one := [Field("rows", "1")];
    assert PutField([], "rows", "1") == one;
    assert NodePos(one, RowName(0)) == 1;
    OneIsOne();
    assert RowNodes([row]) == [Node(RowName(0), row)];
  }

  lemma OneIsOne()
    ensures ToStr(1) == "1"
  {
    ToStrSmall(1);
    assert Dec(1) == [DigitChar(1)];
    assert DigitChar(1) == '1';
  }

  /** `TableCleared::serialise`. */
  method SerialiseClear(name: string) returns (m: Message)
    ensures m == TableClear(name)
  {
    var items := PutPath([], ["head", "msgtype"], TABLE_CLEAR);
    FirstPath("head", "msgtype", TABLE_CLEAR);
    NamesDiffer();
    SecondHeadField("msgtype", TABLE_CLEAR, "tablename", name);
    items := PutPath(items, ["head", "tablename"], name);
    m := Message(TABLE_CLEAR, items);
  }

  // ----- Reading the head -----

  lemma HeadLookup(head: seq<Item>, body: seq<Item>, n: string)
    ensures FindField([Node("head", head), Node("body", body)], ["head", n]) == FieldVal(head, n)
  {
    Sections(head, body);
    assert ["head", n][1..] == [n];
    assert FindField(head, [n]) == FieldVal(head, n);
  }

  /** A numbered message says which one it is and how many there are. */
  lemma NumbersAreRead(name: string, rows: seq<seq<Item>>, i: nat, n: nat)
    requires i < 0x8000_0000 && n < 0x8000_0000
    ensures var m := TableUpdate(name, rows, SnapFields(i, n));
      && FindField(m.items, ["head", "snapi"]) == Some(Dec(i))
      && FindField(m.items, ["head", "snapn"]) == Some(Dec(n))
  {
    var head := HeadItems(name) + SnapFields(i, n);
    HeadLookup(head, BodyItems(rows), "snapi");
    HeadLookup(head, BodyItems(rows), "snapn");
    NumbersInHead(name, i, n);
    ToStrSmall(i);
    ToStrSmall(n);
  }

  lemma NumbersInHead(name: string, i: nat, n: nat)
    ensures var head := HeadItems(name) + SnapFields(i, n);
      FieldVal(head, "snapi") == Some(ToStr(i)) && FieldVal(head, "snapn") == Some(ToStr(n))
  {
    FourFields(name, TABLE_UPDATE, ToStr(i), ToStr(n));
    assert HeadItems(name) + SnapFields(i, n)
        == [Field("tablename", name), Field("msgtype", TABLE_UPDATE), Field("snapi", ToStr(i)), Field("snapn", ToStr(n))];
  }

  lemma FourFields(a: string, b: string, c: string, d: string)
    ensures var head := [Field("tablename", a), Field("msgtype", b), Field("snapi", c), Field("snapn", d)];
      FieldVal(head, "snapi") == Some(c) && FieldVal(head, "snapn") == Some(d)
  {
    var head := [Field("tablename", a), Field("msgtype", b), Field("snapi", c), Field("snapn", d)];
    assert "tablename"[0] == 't' && "msgtype"[0] == 'm' && "snapi"[0] == 's' && "snapi"[4] == 'i' && "snapn"[4] == 'n';
    assert IsField(head[2], "snapi") && IsField(head[3], "snapn");
    assert forall k :: 0 <= k < 2 ==> !IsField(head[k], "snapi");
    assert forall k :: 0 <= k < 3 ==> !IsField(head[k], "snapn");
  }
}
