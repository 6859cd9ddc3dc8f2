/** From the table to a remote subscriber's map: publishing, encoding, any cutting of the byte
    stream, decoding and folding (libexio/Table.cc, libexio/sam.cc, libexio/Client.cc). */
module EndToEnd {
  import opened Framing
  import opened KeyOrder
  import opened SamText
  import opened SamTree
  import opened SamCodec
  import opened TableModel
  import opened TableMessages
  import opened Snapshot
  import opened Publishing
  import opened Subscriber
  import opened Sync
  import opened SyncRuns
  import Outbound

  /** Well-formed but for its length. */
  predicate Shaped(m: Message) {
    Consistent(m.items) && CleanNames(m.items) && Clean(m.mtype, META_DELIM)
  }

  // ----- Rows -----

  /** Fields only, with different clean names. */
  predicate FlatClean(items: seq<Item>) {
    && (forall i :: 0 <= i < |items| ==> items[i].Field? && CleanName(items[i].name))
    && (forall i, j :: 0 <= i < j < |items| ==> items[i].name != items[j].name)
  }

  lemma PutFieldFlat(items: seq<Item>, n: string, v: string)
    requires FlatClean(items) && CleanName(n)
    ensures FlatClean(PutField(items, n, v))
  {
    var p := FieldPos(items, n);
    forall i | 0 <= i < |items| && i != p ensures items[i].name != n {
      if i > p { assert items[p].name != items[i].name; } else { assert !IsField(items[i], n); }
    }
  }

  lemma {:induction false} PutAllFlat(items: seq<Item>, names: seq<string>, fields: Fields)
    requires forall n :: n in names ==> n in fields && CleanName(n)
    requires FlatClean(items)
    ensures FlatClean(PutAll(items, names, fields))
  {
    if names != [] {
      var l := |names| - 1;
      PutAllFlat(items, names[..l], fields);
      PutFieldFlat(PutAll(items, names[..l], fields), names[l], fields[names[l]]);
    }
  }

  predicate CleanFields(fields: Fields) {
    forall n :: n in fields ==> CleanName(n)
  }

  lemma RowIsFlat(r: Row)
    requires CleanFields(r.fields)
    ensures FlatClean(RowItems(r))
  {
    PutAllFlat([], Listing(r.fields.Keys), r.fields);
  }

  lemma UpdateIsFlat(key: string, fields: Fields)
    requires CleanFields(fields)
    ensures FlatClean(UpdateItems(key, fields))
  {
    assert CleanName(ROW_KEY);
    PutAllFlat([Field(ROW_KEY, key)], Listing(fields.Keys), fields);
  }

  // ----- Messages -----

  lemma RowNameClean(i: nat)
    ensures CleanName(RowName(i))
  {
    DecIsDigits(i);
    var n := RowName(i);
    forall c | c in n ensures c != VALUE_DELIM && c != ESCAPE {
      if c in Dec(i) { assert IsDigit(c); } else { assert c in "row_"; }
    }
  }

  lemma BodyNamesDiffer(rows: seq<Cells>)
    ensures var b := BodyItems(rows);
      forall i, j :: 0 <= i < j < |b| && b[i].name == b[j].name ==> b[i].Field? != b[j].Field?
  {
    var b := BodyItems(rows);
    forall i, j | 0 <= i < j < |b| && b[i].name == b[j].name ensures b[i].Field? != b[j].Field? {
      if i > 0 { RowNamesDiffer(i - 1, j - 1); }
    }
  }

  lemma FlatIsShaped(items: seq<Item>)
    requires FlatClean(items)
    ensures Consistent(items) && CleanNames(items)
  {
  }

  lemma BodyShaped(rows: seq<Cells>)
    requires forall i :: 0 <= i < |rows| ==> FlatClean(rows[i])
    ensures Consistent(BodyItems(rows)) && CleanNames(BodyItems(rows))
  {
    var b := BodyItems(rows);
    BodyNamesDiffer(rows);
    forall i | 0 <= i < |b|
      ensures CleanName(b[i].name) && (b[i].Node? ==> Consistent(b[i].items) && CleanNames(b[i].items))
    {
      if i == 0 {
        assert CleanName("rows");
      } else {
        RowNameClean(i - 1);
        FlatIsShaped(rows[i - 1]);
        assert b[i] == Node(RowName(i - 1), rows[i - 1]);
      }
    }
  }

  lemma HeadShaped(name: string, extra: seq<Item>)
    requires extra == [] || exists i, n :: extra == SnapFields(i, n)
    ensures FlatClean(HeadItems(name) + extra)
  {
    var h := HeadItems(name) + extra;
    NamesDiffer();
    assert CleanName("tablename") && CleanName("msgtype") && CleanName("snapi") && CleanName("snapn");
    assert "tablename"[0] == 't' && "msgtype"[0] == 'm' && "snapi"[0] == 's' && "snapn"[0] == 's';
    assert "snapi"[4] == 'i' && "snapn"[4] == 'n';
  }

  lemma TwoSections(head: seq<Item>, body: seq<Item>)
    requires FlatClean(head) && Consistent(body) && CleanNames(body)
    ensures Shaped(Message(TABLE_UPDATE, [Node("head", head), Node("body", body)]))
  {
    var items := [Node("head", head), Node("body", body)];
    assert items[0].name[0] == 'h' && items[1].name[0] == 'b';
    assert CleanName("head") && CleanName("body");
    assert Consistent(head) && CleanNames(head);
  }

  lemma UpdateShaped(name: string, rows: seq<Cells>, extra: seq<Item>)
    requires forall i :: 0 <= i < |rows| ==> FlatClean(rows[i])
    requires extra == [] || exists i, n :: extra == SnapFields(i, n)
    ensures Shaped(TableUpdate(name, rows, extra))
  {
    HeadShaped(name, extra);
    BodyShaped(rows);
    TwoSections(HeadItems(name) + extra, BodyItems(rows));
  }

  lemma NoticeShaped(mtype: string, head: seq<Item>)
    requires FlatClean(head) && Clean(mtype, META_DELIM)
    ensures Shaped(Message(mtype, [Node("head", head)]))
  {
    assert CleanName("head");
    assert Consistent(head) && CleanNames(head);
  }

  lemma ClearShaped(name: string)
    ensures Shaped(TableClear(name))
  {
    var head := [Field("msgtype", TABLE_CLEAR), Field("tablename", name)];
    NamesDiffer();
    assert CleanName("tablename") && CleanName("msgtype");
    assert FlatClean(head);
    NoticeShaped(TABLE_CLEAR, head);
  }

  lemma RemovalShaped(name: string)
    ensures Shaped(RowDelMessage(name))
  {
    var head := [Field("msgtype", TABLE_ROW_DEL), Field("tablename", name), Field(ROW_KEY, "")];
    assert "tablename"[0] == 't' && "msgtype"[0] == 'm' && ROW_KEY[0] == 'R';
    assert CleanName("tablename") && CleanName("msgtype") && CleanName(ROW_KEY);
    assert FlatClean(head);
    NoticeShaped(TABLE_ROW_DEL, head);
  }

  lemma EventShaped(name: string, e: Event, m: Message)
    requires m in EventMessages(name, e) && (e.RowMultiUpdate? ==> CleanFields(e.fields))
    ensures Shaped(m)
  {
    match e
    case RowMultiUpdate(key, fields) =>
      UpdateIsFlat(key, fields);
      UpdateShaped(name, [UpdateItems(key, fields)], []);
    case RowRemoved(_) => RemovalShaped(name);
    case TableCleared => ClearShaped(name);
  }

  predicate CleanEvent(e: Event) {
    e.RowMultiUpdate? ==> CleanFields(e.fields)
  }

  predicate CleanEvents(events: seq<Event>) {
    forall e :: e in events ==> CleanEvent(e)
  }

  lemma {:induction false} EventsShaped(name: string, events: seq<Event>, m: Message)
    requires m in Messages(name, events) && CleanEvents(events)
    ensures Shaped(m)
  {
    var l := |events| - 1;
    if m in Messages(name, events[..l]) {
      EventsShaped(name, events[..l], m);
    } else {
      assert CleanEvent(events[l]);
      EventShaped(name, events[l], m);
    }
  }

  // ----- Operations with clean names -----

  predicate CleanColumns(columns: seq<string>) {
    forall c :: c in columns ==> CleanName(c)
  }

  predicate CleanOp(op: Op) {
    match op
    case Update(_, fields) => CleanFields(fields)
    case Columns(columns) => CleanColumns(columns)
    case Delete(_) => true
    case Clear => true
  }

  lemma RowEventsClean(r: Row, fields: Fields, now: string)
    requires CleanFields(fields)
    ensures CleanEvents(RowEvents(r, fields, now))
  {
    assert CleanName(ROW_LAST);
  }

  lemma {:induction false} AllEventsClean(rows: seq<Row>, fields: Fields, clock: Clock, t: nat)
    requires CleanFields(fields)
    ensures CleanEvents(UpdateAllEvents(rows, fields, clock, t))
  {
    if rows != [] {
      AllEventsClean(rows[..|rows| - 1], fields, clock, t);
      RowEventsClean(rows[|rows| - 1], fields, clock(t + |rows| - 1));
    }
  }

  lemma {:induction false} AddColumnsClean(t: Table, columns: seq<string>, clock: Clock)
    requires CleanColumns(columns) && CleanColumns(t.columns)
    ensures var s := AddColumns(t, columns, clock); CleanEvents(s.events) && CleanColumns(s.table.columns)
  {
    if columns != [] {
      var l := |columns| - 1;
      AddColumnsClean(t, columns[..l], clock);
      var t1 := AddColumns(t, columns[..l], clock).table;
      AllEventsClean(t1.rows, map[columns[l] := ""], clock, t1.ticks);
    }
  }

  lemma DoClean(t: Table, op: Op, clock: Clock)
    requires CleanOp(op) && CleanColumns(t.columns)
    ensures var s := Do(t, op, clock); CleanEvents(s.events) && CleanColumns(s.table.columns)
  {
    match op
    case Update(key, fields) =>
      var names := Ordinary(Listing(fields.Keys));
      OrdinaryNames(Listing(fields.Keys));
      var a := AddRow(t, key);
      AddColumnsClean(a.table, names, clock);
      var b := AddColumns(a.table, names, clock).table;
      if HasRow(b.rows, key) { RowEventsClean(b.rows[KeyPos(b.rows, key)], fields, clock(b.ticks)); }
    case Columns(columns) => AddColumnsClean(t, columns, clock);
    case Delete(key) =>
    case Clear =>
  }

  // ----- Runs -----

  predicate CleanAction(a: Action) {
    match a
    case Change(op, _) => CleanOp(op)
    case Subscribe(_, descr, _) => Shaped(descr)
    case SnapshotAll(_, _) => true
  }

  predicate AllShaped(sent: seq<Delivery>) {
    forall d :: d in sent ==> Shaped(d.msg)
  }

  lemma {:induction false} BroadcastMembers(msgs: seq<Message>, subs: seq<nat>, d: Delivery)
    requires d in Broadcast(msgs, subs)
    ensures d.msg in msgs
  {
    var l := |msgs| - 1;
    if d in Broadcast(msgs[..l], subs) { BroadcastMembers(msgs[..l], subs, d); } else { ToAllMembers(msgs[l], subs, d); }
  }

  lemma {:induction false} ToAllMembers(m: Message, subs: seq<nat>, d: Delivery)
    requires d in SendToAll(m, subs)
    ensures d.msg == m
  {
    var l := |subs| - 1;
    if d in SendToAll(m, subs[..l]) { ToAllMembers(m, subs[..l], d); }
  }

  lemma {:induction false} ListMembers(msgs: seq<Message>, session: nat, d: Delivery)
    requires d in SendList(msgs, session)
    ensures d.msg in msgs
  {
    var l := |msgs| - 1;
    if d in SendList(msgs[..l], session) { ListMembers(msgs[..l], session, d); }
  }

  lemma {:induction false} RoundsMembers(name: string, subs: seq<nat>, cuts: seq<Cut>, d: Delivery) returns (c: Cut)
    requires |subs| == |cuts| && d in Rounds(name, subs, cuts)
    ensures c in cuts && d.msg in SnapshotMessages(name, c)
  {
    var l := |subs| - 1;
    if d in Rounds(name, subs[..l], cuts[..l]) {
      c := RoundsMembers(name, subs[..l], cuts[..l], d);
    } else {
      c := cuts[l];
      ListMembers(SnapshotMessages(name, c), subs[l], d);
    }
  }

  /** All batches of a cut consist of members of what they join to. */
  lemma {:induction false} JoinedMembers(cut: Cut, i: nat, k: nat)
    requires i < |cut| && k < |cut[i]|
    ensures cut[i][k] in Joined(cut)
  {
    var l := |cut| - 1;
    if i < l {
      JoinedMembers(cut[..l], i, k);
    }
  }

  lemma {:induction false} RenderedFlat(cells: seq<Cells>, rows: seq<Row>, c: Cells)
    requires Rendered(cells, rows) && c in cells
    requires forall r :: r in rows ==> CleanFields(r.fields)
    ensures FlatClean(c)
  {
    if c == cells[0] { RowIsFlat(rows[0]); } else { RenderedFlat(cells[1..], rows[1..], c); }
  }

  lemma GoodRowsClean(t: Table)
    requires Good(t) && CleanColumns(t.columns)
    ensures forall r :: r in t.rows ==> CleanFields(r.fields)
  {
    assert CleanName(ROW_KEY) && CleanName(ROW_LAST);
    forall r | r in t.rows ensures CleanFields(r.fields) {
      var i :| 0 <= i < |t.rows| && t.rows[i] == r;
      assert GoodRow(t.rows[i], t.columns);
    }
  }

  lemma SnapshotShaped(name: string, t: Table, cut: Cut, m: Message)
    requires Good(t) && CleanColumns(t.columns) && GoodCut(name, t.rows, cut) && m in SnapshotMessages(name, cut)
    ensures Shaped(m)
  {
    GoodRowsClean(t);
    ItemsAreRendered(t.rows);
    CutShaped(name, t.rows, ItemsOf(t.rows), cut, m);
  }

  lemma CutShaped(name: string, rows: seq<Row>, cells: seq<Cells>, cut: Cut, m: Message)
    requires Rendered(cells, rows) && Joined(cut) == cells && m in SnapshotMessages(name, cut)
    requires forall r :: r in rows ==> CleanFields(r.fields)
    ensures Shaped(m)
  {
    var j :| 0 <= j < |cut| && m == TableUpdate(name, cut[j], SnapFields(j, |cut|));
    forall k | 0 <= k < |cut[j]| ensures FlatClean(cut[j][k]) {
      JoinedMembers(cut, j, k);
      RenderedFlat(cells, rows, cut[j][k]);
    }
    UpdateShaped(name, cut[j], SnapFields(j, |cut|));
  }

  predicate CleanWorld(w: World) {
    Good(w.table) && CleanColumns(w.table.columns) && AllShaped(w.sent)
  }

  lemma NextClean(name: string, clock: Clock, w: World, a: Action)
    requires CleanWorld(w) && Enabled(name, w, a) && CleanAction(a)
    ensures CleanWorld(Next(name, clock, w, a))
  {
    match a
    case Change(op, live) =>
      DoClean(w.table, op, clock);
      DoKeepsGood(w.table, op, clock);
      var s := Do(w.table, op, clock);
      forall d | d in Broadcast(Messages(name, s.events), Existing(w.subs, live)) ensures Shaped(d.msg) {
        BroadcastMembers(Messages(name, s.events), Existing(w.subs, live), d);
        EventsShaped(name, s.events, d.msg);
      }
    case Subscribe(session, descr, cut) =>
      if cut.Some? {
        forall d | d in SendList(SnapshotMessages(name, cut.value), session) ensures Shaped(d.msg) {
          ListMembers(SnapshotMessages(name, cut.value), session, d);
          SnapshotShaped(name, w.table, cut.value, d.msg);
        }
      }
    case SnapshotAll(subs, cuts) =>
      if cuts.Some? {
        forall d | d in Rounds(name, subs, cuts.value) ensures Shaped(d.msg) {
          var c := RoundsMembers(name, subs, cuts.value, d);
          GoodCutsMember(name, w.table.rows, cuts.value, c);
          SnapshotShaped(name, w.table, c, d.msg);
        }
      }
  }

  lemma {:induction false} RunClean(name: string, clock: Clock, w: World, actions: seq<Action>)
    requires CleanWorld(w) && Possible(name, clock, w, actions)
    requires forall a :: a in actions ==> CleanAction(a)
    ensures CleanWorld(Run(name, clock, w, actions))
    decreases |actions|
  {
    if actions != [] {
      NextClean(name, clock, w, actions[0]);
      RunClean(name, clock, Next(name, clock, w, actions[0]), actions[1..]);
    }
  }

  lemma {:induction false} InboxMembers(sent: seq<Delivery>, s: nat, m: Message)
    requires m in Inbox(sent, s) && AllShaped(sent)
    ensures Shaped(m)
  {
    var l := |sent| - 1;
    if m in Inbox(sent[..l], s) {
      assert AllShaped(sent[..l]);
      InboxMembers(sent[..l], s, m);
    }
  }

  /** What a subscriber that has received all of `msgs` holds. */
  predicate Agrees(name: string, w: World, s: nat, msgs: seq<Message>, deletions: bool) {
    var view := ReceiveAll(map[], name, msgs);
    && (s in w.snapped ==> Includes(view, w.table.rows))
    && (!deletions ==> Behind(view, w.table.rows))
    && (!deletions && s in w.snapped ==> Synced(view, w.table.rows))
  }

  /** Every message sent to a subscriber in a run with clean column names is well-formed, up to the
      decoder's limit. */
  lemma InboxWellFormed(name: string, clock: Clock, actions: seq<Action>, s: nat)
    requires Possible(name, clock, NewWorld, actions)
    requires forall a :: a in actions ==> CleanAction(a)
    ensures forall m :: m in Inbox(Run(name, clock, NewWorld, actions).sent, s) && |Encode(m)| <= MAX_DECODE_LEN ==> WellFormed(m)
  {
    RunClean(name, clock, NewWorld, actions);
    var sent := Run(name, clock, NewWorld, actions).sent;
    forall m | m in Inbox(sent, s) && |Encode(m)| <= MAX_DECODE_LEN ensures WellFormed(m) { InboxMembers(sent, s, m); }
  }

  /** The whole way. For every run of a table whose column names are clean, every subscriber, every
      interleaving of its outbound queue with the socket, and every way of cutting the bytes into
      reads: the decoded messages are the first ones sent to it; and once every byte has arrived,
      folding them agrees with the table. Every byte arrives if the queue never stops accepting, is
      drained, and everything sent is read; and it never stops if nobody asks for a close and
      everything together fits its bound. Messages must not exceed the decoder's limit. */
  lemma TableReachesSubscriber(name: string, clock: Clock, actions: seq<Action>, s: nat,
                               queue: seq<Outbound.Action>, calls: seq<seq<string>>)
    requires Possible(name, clock, NewWorld, actions)
    requires forall a :: a in actions ==> Watching(a, s) && CleanAction(a)
    requires Outbound.Possible(Outbound.Empty, queue)
    requires var msgs := Inbox(Run(name, clock, NewWorld, actions).sent, s);
      && (forall m :: m in msgs ==> |Encode(m)| <= MAX_DECODE_LEN)
      && Outbound.Offered(queue) == EncodeAll(Encode, msgs)
    requires FlattenAll(calls) <= Outbound.Run(Outbound.Empty, queue).sent
    ensures var w := Run(name, clock, NewWorld, actions);
      var msgs := Inbox(w.sent, s);
      var out := Outbound.Run(Outbound.Empty, queue);
      var got := WorkAll(Decode, Receiver("", []), calls);
      && got.delivered <= msgs
      && (FlattenAll(calls) == EncodeAll(Encode, msgs) ==> got == Receiver("", msgs) && Agrees(name, w, s, got.delivered, AnyDeletes(actions)))
      && (out.acceptMore && Outbound.Bytes(out.items) == "" && FlattenAll(calls) == out.sent ==> FlattenAll(calls) == EncodeAll(Encode, msgs))
      && (Outbound.NoClose(queue) && |EncodeAll(Encode, msgs)| <= Outbound.MAX_PENDING ==> out.acceptMore)
  {
    var msgs := Inbox(Run(name, clock, NewWorld, actions).sent, s);
    SubscriberAgrees(name, clock, actions, s);
    InboxWellFormed(name, clock, actions, s);
    Outbound.SentIsPrefix(queue);
    if Outbound.NoClose(queue) && |EncodeAll(Encode, msgs)| <= Outbound.MAX_PENDING { Outbound.SmallRunsAreSent(queue); }
    PartialStream(msgs, calls);
  }

  lemma PartialStream(msgs: seq<Message>, calls: seq<seq<string>>)
    requires forall i :: 0 <= i < |msgs| ==> WellFormed(msgs[i])
    requires FlattenAll(calls) <= EncodeAll(Encode, msgs)
    ensures var got := WorkAll(Decode, Receiver("", []), calls);
      && got.delivered <= msgs
      && (FlattenAll(calls) == EncodeAll(Encode, msgs) ==> got == Receiver("", msgs))
  {
    SamStream(msgs, calls);
    if FlattenAll(calls) == EncodeAll(Encode, msgs) { WholeStream(msgs, calls); }
  }

  lemma WholeStream(msgs: seq<Message>, calls: seq<seq<string>>)
    requires forall i :: 0 <= i < |msgs| ==> WellFormed(msgs[i])
    requires FlattenAll(calls) == EncodeAll(Encode, msgs)
    ensures WorkAll(Decode, Receiver("", []), calls) == Receiver("", msgs)
  {
    SamStream(msgs, calls);
    assert msgs[..|msgs|] == msgs;
    var n := |FlattenAll(calls)|;
    assert EncodeAll(Encode, msgs) == EncodeAll(Encode, msgs) + Started(Encode, msgs, n);
    assert |Started(Encode, msgs, n)| == 0;
  }
}
