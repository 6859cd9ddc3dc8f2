/** What the published messages look like to a reader, and exactly which messages each session is
    handed (libexio/Table.cc, libexio/TableEvents.cc, libexio/TableSerialiser.cc). */
module Deliveries {
  import opened SamText
  import opened SamTree
  import opened TableModel
  import opened TableMessages
  import opened Snapshot
  import opened Publishing
  import opened Subscriber
  import opened SyncRuns

  // ----- The messages, by literal names -----

  lemma BodyLookup(head: seq<Item>, body: seq<Item>, n: string)
    ensures var items := [Node("head", head), Node("body", body)];
      && FindField(items, ["body", n]) == FieldVal(body, n)
      && FindChild(items, ["body", n]) == Child(body, n)
  {
    Sections(head, body);
    assert ["body", n][1..] == [n];
    assert FindField(body, [n]) == FieldVal(body, n) && FindChild(body, [n]) == Child(body, n);
  }

  lemma HeadOf(name: string, extra: seq<Item>)
    ensures FieldVal(HeadItems(name) + extra, "tablename") == Some(name)
    ensures FieldVal(HeadItems(name) + extra, "msgtype") == Some("tableupdate")
  {
    var h := HeadItems(name) + extra;
    NamesDiffer();
    assert FieldPos(h, "tablename") == 0;
    assert FieldPos(h, "msgtype") == 1;
  }

  /** An update or snapshot message names its table and kind, counts its rows, and holds row i in
      the container row_i. */
  lemma UpdateForm(name: string, rows: seq<Cells>, extra: seq<Item>)
    ensures var m := TableUpdate(name, rows, extra);
      && m.mtype == "tableupdate"
      && FindField(m.items, ["head", "tablename"]) == Some(name)
      && FindField(m.items, ["head", "msgtype"]) == Some("tableupdate")
      && (|rows| < 0x8000_0000 ==> FindField(m.items, ["body", "rows"]) == Some(Dec(|rows|)))
      && (forall i {:trigger rows[i]} :: 0 <= i < |rows| ==> FindChild(m.items, ["body", "row_" + Dec(i)]) == Some(rows[i]))
  {
    var h, b := HeadItems(name) + extra, BodyItems(rows);
    var m := TableUpdate(name, rows, extra);
    HeadOf(name, extra);
    HeadLookup(h, b, "tablename");
    HeadLookup(h, b, "msgtype");
    BodyLookup(h, b, "rows");
    BodyCounts(rows);
    if |rows| < 0x8000_0000 { ToStrSmall(|rows|); }
    forall i {:trigger rows[i]} | 0 <= i < |rows| ensures FindChild(m.items, ["body", "row_" + Dec(i)]) == Some(rows[i]) {
      RowIsFound(rows, i);
      BodyLookup(h, b, RowName(i));
    }
  }

  /** The message of a row update carries the key and every changed field, in the container row_0. */
  lemma UpdateSays(name: string, key: string, fields: Fields)
    requires "RowKey" !in fields
    ensures var row := FindChild(UpdateMessage(name, key, fields).items, ["body", "row_0"]);
      && row.Some? && FieldVal(row.value, "RowKey") == Some(key)
      && (forall n :: n in fields ==> FieldVal(row.value, n) == Some(fields[n]))
  {
    var cells := UpdateItems(key, fields);
    UpdateForm(name, [cells], []);
    assert [cells][0] == cells;
    ZeroName();
    UpdateCells(key, fields);
    forall n | n in fields ensures FieldVal(cells, n) == Some(fields[n]) {
      AsMapLookup(cells, n);
      assert AsMap(cells)[n] == fields[n];
    }
  }

  lemma ZeroName()
    ensures "row_" + Dec(0) == "row_0"
  {
    assert Dec(0) == [DigitChar(0)];
    assert DigitChar(0) == '0';
  }

  /** The two notices. */
  lemma NoticeForm(name: string)
    ensures var m := TableClear(name);
      && m.mtype == "tableclear"
      && FindField(m.items, ["head", "msgtype"]) == Some("tableclear")
      && FindField(m.items, ["head", "tablename"]) == Some(name)
    ensures var m := RowDelMessage(name);
      && m.mtype == "tablerowdel"
      && FindField(m.items, ["head", "msgtype"]) == Some("tablerowdel")
      && FindField(m.items, ["head", "tablename"]) == Some(name)
      && FindField(m.items, ["head", "RowKey"]) == Some("")
  {
    var c := [Field("msgtype", "tableclear"), Field("tablename", name)];
    var d := [Field("msgtype", "tablerowdel"), Field("tablename", name), Field("RowKey", "")];
    assert "msgtype"[0] == 'm' && "tablename"[0] == 't' && "RowKey"[0] == 'R';
    OneSection(c, "msgtype");
    OneSection(c, "tablename");
    assert FieldPos(c, "msgtype") == 0;
    assert FieldPos(c, "tablename") == 1;
    OneSection(d, "msgtype");
    OneSection(d, "tablename");
    OneSection(d, "RowKey");
    assert FieldPos(d, "msgtype") == 0;
    assert FieldPos(d, "tablename") == 1;
    assert !IsField(d[0], "RowKey") && !IsField(d[1], "RowKey") && IsField(d[2], "RowKey");
    assert FieldPos(d, "RowKey") == 2;
  }

  lemma OneSection(head: seq<Item>, n: string)
    ensures FindField([Node("head", head)], ["head", n]) == FieldVal(head, n)
  {
    assert ["head", n][1..] == [n];
    assert NodePos([Node("head", head)], "head") == 0;
    assert FindField(head, [n]) == FieldVal(head, n);
  }

  /** Events with a message on the wire. */
  function Told(events: seq<Event>): nat {
    if events == [] then 0
    else (if events[0].NewRow? || events[0].NewColumn? then 0 else 1) + Told(events[1..])
  }

  lemma {:induction false} ToldConcat(a: seq<Event>, b: seq<Event>)
    ensures Told(a + b) == Told(a) + Told(b)
    decreases |a|
  {
    if a == [] {
      assert a + b == b;
    } else {
      ToldConcat(a[1..], b);
      assert (a + b)[1..] == a[1..] + b;
    }
  }

  /** One message for each such event and none for the others. */
  lemma {:induction false} OneMessageEach(name: string, events: seq<Event>)
    ensures |Messages(name, events)| == Told(events)
  {
    if events != [] {
      var l := |events| - 1;
      OneMessageEach(name, events[..l]);
      ToldConcat(events[..l], [events[l]]);
      assert events == events[..l] + [events[l]];
      assert [events[l]][1..] == [];
    }
  }

  // ----- Who is handed what -----

  function Count(subs: seq<nat>, s: nat): nat {
    if subs == [] then 0 else (if subs[0] == s then 1 else 0) + Count(subs[1..], s)
  }

  lemma {:induction false} CountConcat(a: seq<nat>, b: seq<nat>, s: nat)
    ensures Count(a + b, s) == Count(a, s) + Count(b, s)
    decreases |a|
  {
    if a == [] {
      assert a + b == b;
    } else {
      CountConcat(a[1..], b, s);
      assert (a + b)[1..] == a[1..] + b;
    }
  }

  lemma CountLast(subs: seq<nat>, s: nat)
    requires subs != []
    ensures var l := |subs| - 1; Count(subs, s) == Count(subs[..l], s) + if subs[l] == s then 1 else 0
  {
    var l := |subs| - 1;
    CountConcat(subs[..l], [subs[l]], s);
    assert subs == subs[..l] + [subs[l]];
    assert [subs[l]][1..] == [];
  }

  /** `k` copies of each message, the copies of one before those of the next. */
  function Copies(msgs: seq<Message>, k: nat): seq<Message> {
    if msgs == [] then [] else Copies(msgs[..|msgs| - 1], k) + seq(k, _ => msgs[|msgs| - 1])
  }

  lemma {:induction false} OneCopy(msgs: seq<Message>)
    ensures Copies(msgs, 1) == msgs && Copies(msgs, 0) == []
  {
    if msgs != [] {
      var l := |msgs| - 1;
      OneCopy(msgs[..l]);
      assert seq(1, _ => msgs[l]) == [msgs[l]];
      assert msgs == msgs[..l] + [msgs[l]];
    }
  }

  lemma {:induction false} ToAllInbox(m: Message, subs: seq<nat>, s: nat)
    ensures Inbox(SendToAll(m, subs), s) == seq(Count(subs, s), _ => m)
  {
    if subs != [] {
      var l := |subs| - 1;
      ToAllInbox(m, subs[..l], s);
      CountLast(subs, s);
      InboxConcat(SendToAll(m, subs[..l]), [Delivery(subs[l], m)], s);
      InboxOne(Delivery(subs[l], m), s);
      assert seq(Count(subs[..l], s), _ => m) + [m] == seq(Count(subs[..l], s) + 1, _ => m);
    }
  }

  /** A session listed k times is handed each message k times in a row, and nothing else. */
  lemma {:induction false} BroadcastInbox(msgs: seq<Message>, subs: seq<nat>, s: nat)
    ensures Inbox(Broadcast(msgs, subs), s) == Copies(msgs, Count(subs, s))
  {
    if msgs != [] {
      var l := |msgs| - 1;
      BroadcastInbox(msgs[..l], subs, s);
      ToAllInbox(msgs[l], subs, s);
      InboxConcat(Broadcast(msgs[..l], subs), SendToAll(msgs[l], subs), s);
    }
  }

  lemma {:induction false} ExistingCount(subs: seq<nat>, live: set<nat>, s: nat)
    ensures Count(Existing(subs, live), s) == if s in live then Count(subs, s) else 0
  {
    if subs != [] {
      var l := |subs| - 1;
      ExistingCount(subs[..l], live, s);
      CountLast(subs, s);
      var last := if subs[l] in live then [subs[l]] else [];
      CountConcat(Existing(subs[..l], live), last, s);
      assert subs[l] in live ==> last[1..] == [];
    }
  }

  /** A change of the table hands every existing subscriber the messages of its events, once for
      each time it is listed, behind what it was handed before. */
  lemma ChangeReaches(name: string, clock: Clock, w: World, op: Op, live: set<nat>, s: nat)
    ensures var w' := Next(name, clock, w, Change(op, live));
      var msgs := Messages(name, Do(w.table, op, clock).events);
      && w'.subs == w.subs
      && Inbox(w'.sent, s) == Inbox(w.sent, s) + Copies(msgs, if s in live then Count(w.subs, s) else 0)
  {
    var msgs := Messages(name, Do(w.table, op, clock).events);
    InboxConcat(w.sent, Broadcast(msgs, Existing(w.subs, live)), s);
    BroadcastInbox(msgs, Existing(w.subs, live), s);
    ExistingCount(w.subs, live, s);
  }

  /** A subscription hands the new subscriber the description and then the snapshot, and nobody
      else anything. */
  lemma SubscriptionReaches(name: string, clock: Clock, w: World, session: nat, descr: Message, cut: Option<Cut>, s: nat)
    requires Enabled(name, w, Subscribe(session, descr, cut))
    ensures var w' := Next(name, clock, w, Subscribe(session, descr, cut));
      && w'.table == w.table && w'.subs == w.subs + [session]
      && Inbox(w'.sent, s) == Inbox(w.sent, s) + (if s != session then [] else
           [descr] + if cut.None? then [] else SnapshotMessages(name, cut.value))
  {
    var d := Delivery(session, descr);
    InboxConcat(w.sent, [d], s);
    InboxOne(d, s);
    if cut.Some? {
      var list := SendList(SnapshotMessages(name, cut.value), session);
      InboxConcat(w.sent + [d], list, s);
      ListHeard(SnapshotMessages(name, cut.value), session, s);
    }
    ThreeParts(Inbox(w.sent, s), [descr], if cut.None? then [] else SnapshotMessages(name, cut.value));
  }

  lemma ThreeParts(a: seq<Message>, b: seq<Message>, c: seq<Message>)
    ensures a + [] + [] == a + [] && a + b + c == a + (b + c) && a + b + [] == a + (b + [])
  {
  }

  lemma {:induction false} RoundSkips(name: string, subs: seq<nat>, cuts: seq<Cut>, s: nat)
    requires |subs| == |cuts| && s !in subs
    ensures Inbox(Rounds(name, subs, cuts), s) == []
  {
    if subs != [] {
      var l := |subs| - 1;
      RoundSkips(name, subs[..l], cuts[..l], s);
      LastRound(name, subs, cuts, s);
      assert subs[l] != s;
    }
  }

  lemma LastRound(name: string, subs: seq<nat>, cuts: seq<Cut>, s: nat)
    requires |subs| == |cuts| && subs != []
    ensures var l := |subs| - 1;
      Inbox(Rounds(name, subs, cuts), s)
      == Inbox(Rounds(name, subs[..l], cuts[..l]), s) + if subs[l] == s then SnapshotMessages(name, cuts[l]) else []
  {
    var l := |subs| - 1;
    InboxConcat(Rounds(name, subs[..l], cuts[..l]), SendList(SnapshotMessages(name, cuts[l]), subs[l]), s);
    ListHeard(SnapshotMessages(name, cuts[l]), subs[l], s);
  }

  /** A round of snapshots hands a session listed once exactly the one made for it, and a session
      that is not listed nothing. */
  lemma {:induction false} RoundReaches(name: string, subs: seq<nat>, cuts: seq<Cut>, i: nat)
    requires |subs| == |cuts| && i < |subs| && subs[i] !in subs[..i] && subs[i] !in subs[i + 1..]
    ensures Inbox(Rounds(name, subs, cuts), subs[i]) == SnapshotMessages(name, cuts[i])
  {
    var l := |subs| - 1;
    if i == l {
      RoundSkips(name, subs[..l], cuts[..l], subs[i]);
      LastRound(name, subs, cuts, subs[i]);
    } else {
      OnlyOneInFront(subs, i);
      RoundReaches(name, subs[..l], cuts[..l], i);
      NotTheLast(name, subs, cuts, subs[i], SnapshotMessages(name, cuts[i]));
    }
  }

  lemma NotTheLast(name: string, subs: seq<nat>, cuts: seq<Cut>, s: nat, msgs: seq<Message>)
    requires |subs| == |cuts| && subs != [] && subs[|subs| - 1] != s
    requires Inbox(Rounds(name, subs[..|subs| - 1], cuts[..|cuts| - 1]), s) == msgs
    ensures Inbox(Rounds(name, subs, cuts), s) == msgs
  {
    LastRound(name, subs, cuts, s);
    assert msgs + [] == msgs;
  }

  lemma OnlyOneInFront(subs: seq<nat>, i: nat)
    requires i < |subs| - 1 && subs[i] !in subs[..i] && subs[i] !in subs[i + 1..]
    ensures var front := subs[..|subs| - 1]; front[i] !in front[..i] && front[i] !in front[i + 1..]
    ensures subs[|subs| - 1] != subs[i]
  {
    var l := |subs| - 1;
    assert subs[l] == subs[i + 1..][l - i - 1];
    assert subs[..l][..i] == subs[..i];
    assert subs[..l][i + 1..] == subs[i + 1..][..l - i - 1];
  }
}
