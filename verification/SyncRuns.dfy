/** Agreement over whole runs of a table with many subscribers, some subscribed more than once
    (libexio/Table.cc, libexio/TableEvents.cc). */
module SyncRuns {
  import Framing
  import opened KeyOrder
  import opened SamTree
  import opened TableModel
  import opened TableMessages
  import opened TableReplay
  import opened Snapshot
  import opened Publishing
  import opened Subscriber
  import opened Sync

  /** What one session receives. */
  function Inbox(sent: seq<Delivery>, s: nat): seq<Message> {
    if sent == [] then []
    else
      var d := sent[|sent| - 1];
      Inbox(sent[..|sent| - 1], s) + if d.session == s then [d.msg] else []
  }

  function ViewOf(name: string, sent: seq<Delivery>, s: nat): View {
    ReceiveAll(map[], name, Inbox(sent, s))
  }

  lemma {:induction false} InboxConcat(a: seq<Delivery>, b: seq<Delivery>, s: nat)
    ensures Inbox(a + b, s) == Inbox(a, s) + Inbox(b, s)
    decreases |b|
  {
    if b == [] {
      assert a + b == a;
    } else {
      var l := |b| - 1;
      assert (a + b)[..|a + b| - 1] == a + b[..l];
      InboxConcat(a, b[..l], s);
    }
  }

  /** More deliveries: the view goes on from where it was. */
  lemma ViewGrows(name: string, a: seq<Delivery>, b: seq<Delivery>, s: nat)
    ensures ViewOf(name, a + b, s) == ReceiveAll(ViewOf(name, a, s), name, Inbox(b, s))
  {
    InboxConcat(a, b, s);
    ReceiveConcat(map[], name, Inbox(a, s), Inbox(b, s));
  }

  // ----- Receiving the same message twice in a row -----

  ghost predicate Idempotent(name: string, m: Message) {
    forall v: View :: Receive(Receive(v, name, m), name, m) == Receive(v, name, m)
  }

  lemma UpdateIsIdempotent(name: string, key: string, fields: Fields)
    requires ROW_KEY !in fields
    ensures Idempotent(name, UpdateMessage(name, key, fields))
  {
    var m := UpdateMessage(name, key, fields);
    forall v: View ensures Receive(Receive(v, name, m), name, m) == Receive(v, name, m) {
      UpdateHeard(v, name, key, fields);
      UpdateHeard(Receive(v, name, m), name, key, fields);
      var more := map[ROW_KEY := key] + fields;
      assert Known(v, key) + more + more == Known(v, key) + more;
    }
  }

  lemma EventMessagesIdempotent(name: string, e: Event, m: Message)
    requires m in EventMessages(name, e)
    requires e.RowMultiUpdate? ==> ROW_KEY !in e.fields
    ensures Idempotent(name, m)
  {
    match e
    case RowMultiUpdate(key, fields) => UpdateIsIdempotent(name, key, fields);
    case RowRemoved(_) => forall v: View { RemovalIgnored(v, name); }
    case TableCleared => forall v: View { ClearEffect(v, name); }
  }

  lemma {:induction false} MessagesIdempotent(name: string, events: seq<Event>, m: Message)
    requires m in Messages(name, events)
    requires forall e :: e in events && e.RowMultiUpdate? ==> ROW_KEY !in e.fields
    ensures Idempotent(name, m)
  {
    var l := |events| - 1;
    if m in Messages(name, events[..l]) {
      MessagesIdempotent(name, events[..l], m);
    } else {
      EventMessagesIdempotent(name, events[l], m);
    }
  }

  lemma {:induction false} HeardOnce(view: View, name: string, m: Message, subs: seq<nat>, s: nat)
    requires Idempotent(name, m)
    ensures ReceiveAll(view, name, Inbox(SendToAll(m, subs), s)) == if s in subs then Receive(view, name, m) else view
  {
    if subs != [] {
      var l := |subs| - 1;
      HeardOnce(view, name, m, subs[..l], s);
      var first, last := SendToAll(m, subs[..l]), [Delivery(subs[l], m)];
      InboxConcat(first, last, s);
      assert subs == subs[..l] + [subs[l]];
      if subs[l] == s {
        assert Inbox(last, s) == [m] by { assert last[..0] == []; assert Inbox(last[..0], s) == []; }
        LastReceived(view, name, Inbox(first, s), m);
      } else {
        assert Inbox(last, s) == [] by { assert last[..0] == []; assert Inbox(last[..0], s) == []; }
        assert Inbox(first, s) + [] == Inbox(first, s);
      }
    }
  }

  /** However often a session is subscribed, it hears a broadcast as if it were subscribed once. */
  lemma {:induction false} BroadcastHeard(view: View, name: string, msgs: seq<Message>, subs: seq<nat>, s: nat)
    requires forall m :: m in msgs ==> Idempotent(name, m)
    ensures ReceiveAll(view, name, Inbox(Broadcast(msgs, subs), s)) == if s in subs then ReceiveAll(view, name, msgs) else view
  {
    if msgs != [] {
      var l := |msgs| - 1;
      BroadcastHeard(view, name, msgs[..l], subs, s);
      var first, last := Broadcast(msgs[..l], subs), SendToAll(msgs[l], subs);
      InboxConcat(first, last, s);
      ReceiveConcat(view, name, Inbox(first, s), Inbox(last, s));
      HeardOnce(ReceiveAll(view, name, Inbox(first, s)), name, msgs[l], subs, s);
    }
  }

  lemma {:induction false} ListHeard(msgs: seq<Message>, session: nat, s: nat)
    ensures Inbox(SendList(msgs, session), s) == if session == s then msgs else []
  {
    if msgs != [] {
      var l := |msgs| - 1;
      ListHeard(msgs[..l], session, s);
      assert msgs == msgs[..l] + [msgs[l]];
    }
  }

  lemma {:induction false} ExistingHas(subs: seq<nat>, live: set<nat>, s: nat)
    ensures s in Existing(subs, live) <==> s in subs && s in live
  {
    if subs != [] {
      ExistingHas(subs[..|subs| - 1], live, s);
      assert subs == subs[..|subs| - 1] + [subs[|subs| - 1]];
    }
  }

  // ----- What every run keeps, for one session -----

  /** `deleted`: a row has been deleted since the start. */
  predicate Inv(name: string, w: World, s: nat, deleted: bool) {
    var view := ViewOf(name, w.sent, s);
    && Good(w.table)
    && (s !in w.subs ==> Inbox(w.sent, s) == [] && s !in w.snapped)
    && (s in w.snapped ==> Includes(view, w.table.rows))
    && (!deleted ==> Behind(view, w.table.rows))
    && (!deleted && s in w.snapped ==> Synced(view, w.table.rows))
  }

  /** The session exists whenever the table publishes a change. */
  predicate Watching(a: Action, s: nat) {
    a.Change? ==> s in a.live
  }

  predicate Deletes(a: Action) {
    a.Change? && a.op.Delete?
  }

  lemma GoodIsKeyed(t: Table)
    requires Good(t)
    ensures Keyed(t.rows)
  {
    forall i | 0 <= i < |t.rows| ensures ROW_KEY in t.rows[i].fields && t.rows[i].fields[ROW_KEY] == t.rows[i].key {
      assert GoodRow(t.rows[i], t.columns);
    }
  }

  // ----- Changes of the table -----

  lemma {:induction false} UpdatesOnly(rows: seq<Row>, fields: Fields, clock: Clock, t: nat)
    ensures forall e :: e in UpdateAllEvents(rows, fields, clock, t) ==> e.RowMultiUpdate?
  {
    if rows != [] { UpdatesOnly(rows[..|rows| - 1], fields, clock, t); }
  }

  lemma {:induction false} ColumnsRemoveNothing(t: Table, columns: seq<string>, clock: Clock)
    ensures forall e :: e in AddColumns(t, columns, clock).events ==> !e.RowRemoved?
  {
    if columns != [] {
      var l := |columns| - 1;
      ColumnsRemoveNothing(t, columns[..l], clock);
      var t1 := AddColumns(t, columns[..l], clock).table;
      UpdatesOnly(t1.rows, map[columns[l] := ""], clock, t1.ticks);
    }
  }

  lemma RemovesNothing(t: Table, op: Op, clock: Clock)
    requires !op.Delete?
    ensures forall e :: e in Do(t, op, clock).events ==> !e.RowRemoved?
  {
    match op
    case Update(key, fields) =>
      ColumnsRemoveNothing(AddRow(t, key).table, Ordinary(Listing(fields.Keys)), clock);
    case Columns(columns) => ColumnsRemoveNothing(t, columns, clock);
    case Clear =>
  }

  lemma {:induction false} SensibleUpdates(c: Copy, events: seq<Event>)
    requires Sensible(c, events)
    ensures forall e :: e in events && e.RowMultiUpdate? ==> ROW_KEY !in e.fields
  {
    if events != [] {
      SensibleUpdates(c, events[..|events| - 1]);
      assert events == events[..|events| - 1] + [events[|events| - 1]];
    }
  }

  lemma {:induction false} NotSentTo(m: Message, subs: seq<nat>, s: nat)
    requires s !in subs
    ensures Inbox(SendToAll(m, subs), s) == []
  {
    if subs != [] {
      var l := |subs| - 1;
      NotSentTo(m, subs[..l], s);
      assert subs[l] != s;
    }
  }

  lemma {:induction false} NotAddressed(msgs: seq<Message>, subs: seq<nat>, s: nat)
    requires s !in subs
    ensures Inbox(Broadcast(msgs, subs), s) == []
  {
    if msgs != [] {
      var l := |msgs| - 1;
      NotAddressed(msgs[..l], subs, s);
      NotSentTo(msgs[l], subs, s);
      InboxConcat(Broadcast(msgs[..l], subs), SendToAll(msgs[l], subs), s);
    }
  }

  /** A broadcast of the messages of sensible events takes a view that agreed with the old rows
      to one that agrees with the new rows. */
  lemma BroadcastKeeps(view: View, name: string, t: Table, op: Op, clock: Clock, subs: seq<nat>, s: nat)
    requires Good(t) && s in subs
    ensures var d := Do(t, op, clock);
      var v := ReceiveAll(view, name, Inbox(Broadcast(Messages(name, d.events), subs), s));
      && (Includes(view, t.rows) ==> Includes(v, d.table.rows))
      && (Behind(view, t.rows) && !op.Delete? ==> Behind(v, d.table.rows))
      && (Synced(view, t.rows) && !op.Delete? ==> Synced(v, d.table.rows))
  {
    var events := Do(t, op, clock).events;
    DoReplays(t, op, clock);
    if !op.Delete? { RemovesNothing(t, op, clock); }
    SensibleUpdates(CopyOf(t), events);
    forall m | m in Messages(name, events) ensures Idempotent(name, m) {
      MessagesIdempotent(name, events, m);
    }
    BroadcastHeard(view, name, Messages(name, events), subs, s);
    GoodIsKeyed(t);
    EventsKeep(view, name, CopyOf(t), events);
  }

  lemma ChangeKeeps(name: string, clock: Clock, w: World, op: Op, live: set<nat>, s: nat, deleted: bool)
    requires Inv(name, w, s, deleted) && s in live
    ensures Inv(name, Next(name, clock, w, Change(op, live)), s, deleted || op.Delete?)
  {
    var d := Do(w.table, op, clock);
    var subs := Existing(w.subs, live);
    var out := Broadcast(Messages(name, d.events), subs);
    DoKeepsGood(w.table, op, clock);
    ExistingHas(w.subs, live, s);
    ViewGrows(name, w.sent, out, s);
    if s in w.subs {
      BroadcastKeeps(ViewOf(name, w.sent, s), name, w.table, op, clock, subs, s);
    } else {
      NotAddressed(Messages(name, d.events), subs, s);
      InboxConcat(w.sent, out, s);
    }
  }

  // ----- Subscriptions and snapshots -----

  lemma DescriptionIgnored(view: View, name: string, m: Message)
    requires m.mtype == "tabledescr"
    ensures Receive(view, name, m) == view
  {
    assert m.mtype[5] == 'd' && TABLE_CLEAR[5] == 'c' && TABLE_UPDATE[5] == 'u';
  }

  lemma InboxOne(d: Delivery, s: nat)
    ensures Inbox([d], s) == if d.session == s then [d.msg] else []
  {
    assert [d][..0] == [];
    assert Inbox([d][..0], s) == [];
  }

  lemma DescriptionKeeps(name: string, w: World, session: nat, descr: Message, s: nat, deleted: bool)
    requires Inv(name, w, s, deleted) && descr.mtype == "tabledescr"
    ensures Inv(name, w.(subs := w.subs + [session], sent := w.sent + [Delivery(session, descr)]), s, deleted)
  {
    var d := Delivery(session, descr);
    ViewGrows(name, w.sent, [d], s);
    InboxOne(d, s);
    InboxConcat(w.sent, [d], s);
    if session == s {
      ReceiveOne(ViewOf(name, w.sent, s), name, descr);
      DescriptionIgnored(ViewOf(name, w.sent, s), name, descr);
    } else {
      assert Inbox(w.sent, s) + [] == Inbox(w.sent, s);
    }
  }

  function AfterOne(name: string, w: World, session: nat, cut: Cut): World {
    w.(sent := w.sent + SendList(SnapshotMessages(name, cut), session), snapped := w.snapped + {session})
  }

  lemma SnapshotToIt(view: View, name: string, t: Table, cut: Cut)
    requires Good(t) && GoodCut(name, t.rows, cut)
    ensures var v := ReceiveAll(view, name, SnapshotMessages(name, cut));
      Includes(v, t.rows) && (Behind(view, t.rows) ==> Behind(v, t.rows) && Synced(v, t.rows))
  {
    GoodIsKeyed(t);
    SnapshotIncludes(view, name, t.rows, cut);
    if Behind(view, t.rows) {
      SnapshotSyncs(view, name, t.rows, cut);
      SyncedIsBehind(ReceiveAll(view, name, SnapshotMessages(name, cut)), t.rows);
    }
  }

  /** What a list of messages sent to one session does to the inbox and view of each. */
  lemma ListArrives(name: string, sent: seq<Delivery>, msgs: seq<Message>, session: nat, s: nat)
    ensures var out := sent + SendList(msgs, session);
      && (session == s ==> ViewOf(name, out, s) == ReceiveAll(ViewOf(name, sent, s), name, msgs))
      && (session != s ==> ViewOf(name, out, s) == ViewOf(name, sent, s) && Inbox(out, s) == Inbox(sent, s))
  {
    var list := SendList(msgs, session);
    ViewGrows(name, sent, list, s);
    ListHeard(msgs, session, s);
    InboxConcat(sent, list, s);
    assert Inbox(sent, s) + [] == Inbox(sent, s);
  }

  /** One snapshot sent to one subscriber. */
  lemma SnapshotKeeps(name: string, w: World, session: nat, cut: Cut, s: nat, deleted: bool)
    requires Inv(name, w, s, deleted) && session in w.subs && GoodCut(name, w.table.rows, cut)
    ensures Inv(name, AfterOne(name, w, session, cut), s, deleted)
  {
    ListArrives(name, w.sent, SnapshotMessages(name, cut), session, s);
    if session == s { SnapshotToIt(ViewOf(name, w.sent, s), name, w.table, cut); }
  }

  function AfterRounds(name: string, w: World, subs: seq<nat>, cuts: seq<Cut>): World
    requires |subs| == |cuts|
  {
    w.(sent := w.sent + Rounds(name, subs, cuts), snapped := w.snapped + set x | x in subs)
  }

  lemma RoundsStep(name: string, w: World, subs: seq<nat>, cuts: seq<Cut>)
    requires |subs| == |cuts|
    ensures subs == [] ==> AfterRounds(name, w, subs, cuts) == w
    ensures var l := |subs| - 1;
      l >= 0 ==> AfterRounds(name, w, subs, cuts) == AfterOne(name, AfterRounds(name, w, subs[..l], cuts[..l]), subs[l], cuts[l])
  {
    var l := |subs| - 1;
    if l < 0 {
      assert w.sent + [] == w.sent;
      assert w.snapped + (set x | x in subs) == w.snapped;
    } else {
      assert subs == subs[..l] + [subs[l]];
      assert w.snapped + (set x | x in subs[..l]) + {subs[l]} == w.snapped + set x | x in subs;
      Framing.ConcatAssociates(w.sent, Rounds(name, subs[..l], cuts[..l]), SendList(SnapshotMessages(name, cuts[l]), subs[l]));
    }
  }

  lemma {:induction false} RoundsKeep(name: string, w: World, subs: seq<nat>, cuts: seq<Cut>, s: nat, deleted: bool)
    requires Inv(name, w, s, deleted) && |subs| == |cuts|
    requires GoodCuts(name, w.table.rows, cuts)
    requires forall x :: x in subs ==> x in w.subs
    ensures Inv(name, AfterRounds(name, w, subs, cuts), s, deleted)
  {
    RoundsStep(name, w, subs, cuts);
    if subs != [] {
      var l := |subs| - 1;
      RoundsKeep(name, w, subs[..l], cuts[..l], s, deleted);
      SnapshotKeeps(name, AfterRounds(name, w, subs[..l], cuts[..l]), subs[l], cuts[l], s, deleted);
    }
  }

  lemma NextKeeps(name: string, clock: Clock, w: World, a: Action, s: nat, deleted: bool)
    requires Inv(name, w, s, deleted) && Enabled(name, w, a) && Watching(a, s)
    ensures Inv(name, Next(name, clock, w, a), s, deleted || Deletes(a))
  {
    match a
    case Change(op, live) => ChangeKeeps(name, clock, w, op, live, s, deleted);
    case Subscribe(session, descr, cut) =>
      DescriptionKeeps(name, w, session, descr, s, deleted);
      var w1 := w.(subs := w.subs + [session], sent := w.sent + [Delivery(session, descr)]);
      if cut.Some? { SnapshotKeeps(name, w1, session, cut.value, s, deleted); }
    case SnapshotAll(subs, cuts) =>
      if cuts.Some? { RoundsKeep(name, w, subs, cuts.value, s, deleted); }
  }

  predicate AnyDeletes(actions: seq<Action>) {
    actions != [] && (Deletes(actions[0]) || AnyDeletes(actions[1..]))
  }

  lemma {:induction false} RunKeeps(name: string, clock: Clock, w: World, actions: seq<Action>, s: nat, deleted: bool)
    requires Inv(name, w, s, deleted) && Possible(name, clock, w, actions)
    requires forall a :: a in actions ==> Watching(a, s)
    ensures Inv(name, Run(name, clock, w, actions), s, deleted || AnyDeletes(actions))
    decreases |actions|
  {
    if actions != [] {
      NextKeeps(name, clock, w, actions[0], s, deleted);
      RunKeeps(name, clock, Next(name, clock, w, actions[0]), actions[1..], s, deleted || Deletes(actions[0]));
    }
  }

  /** After every run of table operations, subscriptions and snapshots, a subscriber that has been
      sent a whole snapshot holds every row that has a field besides its key, with every field.
      Unless a row was deleted, it holds nothing else: what it holds is exactly the table's. And
      unless a row was deleted, what any subscriber holds is true of the table. This holds however
      often the session is subscribed. */
  lemma SubscriberAgrees(name: string, clock: Clock, actions: seq<Action>, s: nat)
    requires Possible(name, clock, NewWorld, actions)
    requires forall a :: a in actions ==> Watching(a, s)
    ensures var w := Run(name, clock, NewWorld, actions);
      var view := ViewOf(name, w.sent, s);
      && (s in w.snapped ==> Includes(view, w.table.rows))
      && (!AnyDeletes(actions) ==> Behind(view, w.table.rows))
      && (!AnyDeletes(actions) && s in w.snapped ==> Synced(view, w.table.rows))
  {
    assert Inv(name, NewWorld, s, false);
    RunKeeps(name, clock, NewWorld, actions, s, false);
  }

  // ----- Deletion does not reach the subscriber -----

  lemma DeletedIsGone(t: Table, key: string)
    requires DistinctKeys(t.rows)
    ensures !HasRow(DeleteRow(t, key).table.rows, key)
  {
    var i := KeyPos(t.rows, key);
    var rows := DeleteRow(t, key).table.rows;
    if i < |t.rows| {
      forall j | 0 <= j < |rows| ensures rows[j].key != key {
        assert rows[j] == t.rows[if j < i then j else j + 1];
      }
    }
  }

  /** A row that is not the deleted one is still found, with the same fields. */
  lemma OthersStay(t: Table, key: string, k: string)
    requires Good(t) && HasRow(t.rows, key) && HasRow(t.rows, k) && k != key
    ensures var rows := DeleteRow(t, key).table.rows;
      HasRow(rows, k) && FieldsOf(rows, k) == FieldsOf(t.rows, k)
  {
    var rows := DeleteRow(t, key).table.rows;
    var i, p := KeyPos(t.rows, key), KeyPos(t.rows, k);
    var j := if p < i then p else p - 1;
    assert rows[j] == t.rows[p];
    assert DistinctKeys(rows) by { DoKeepsGood(t, Delete(key), n => ""); }
    KeyPosIs(rows, j);
  }

  lemma DeletionOfUnknown(view: View, t: Table, key: string)
    requires Good(t) && Synced(view, t.rows) && HasRow(t.rows, key) && key !in view
    ensures Synced(view, DeleteRow(t, key).table.rows)
  {
    var i := KeyPos(t.rows, key);
    var rows := DeleteRow(t, key).table.rows;
    forall k | k in view ensures HasRow(rows, k) && view[k] == FieldsOf(rows, k) {
      OthersStay(t, key, k);
    }
    forall j | 0 <= j < |rows| && MoreThanKey(rows[j]) ensures rows[j].key in view {
      assert rows[j] == t.rows[if j < i then j else j + 1];
    }
  }

  /** A deletion keeps a subscriber in agreement exactly when it did not hold the row. */
  lemma DeletionIff(view: View, name: string, t: Table, key: string)
    requires Good(t) && Synced(view, t.rows) && HasRow(t.rows, key)
    ensures Synced(Receive(view, name, RowDelMessage(name)), DeleteRow(t, key).table.rows) <==> key !in view
  {
    RemovalIgnored(view, name);
    DeletedIsGone(t, key);
    if key !in view { DeletionOfUnknown(view, t, key); }
  }

  /** Whatever a subscriber makes of all it has received: of two deletions it gets at least one
      wrong, because it hears the same of both. */
  lemma DeletionsSoundAlike(name: string, clock: Clock, w: World, live: set<nat>, s: nat, a: string, b: string,
                            fold: seq<Message> -> View)
    requires Good(w.table) && HasRow(w.table.rows, a) && HasRow(w.table.rows, b) && a != b
    requires MoreThanKey(w.table.rows[KeyPos(w.table.rows, b)])
    ensures var wa, wb := Next(name, clock, w, Change(Delete(a), live)), Next(name, clock, w, Change(Delete(b), live));
      && wa.sent == wb.sent
      && !(Synced(fold(Inbox(wa.sent, s)), wa.table.rows) && Synced(fold(Inbox(wb.sent, s)), wb.table.rows))
  {
    var ta, tb := DeleteRow(w.table, a), DeleteRow(w.table, b);
    SameNotice(name, a, b);
    DeletedIsGone(w.table, b);
    OthersStay(w.table, a, b);
    var view := fold(Inbox(Next(name, clock, w, Change(Delete(a), live)).sent, s));
    NotBoth(view, ta.table.rows, tb.table.rows, b);
  }

  lemma SameNotice(name: string, a: string, b: string)
    ensures Messages(name, [RowRemoved(a)]) == Messages(name, [RowRemoved(b)]) == [RowDelMessage(name)]
  {
    assert [RowRemoved(a)][..0] == [] && [RowRemoved(b)][..0] == [];
    assert Messages(name, []) == [];
  }

  lemma NotBoth(view: View, with: seq<Row>, without: seq<Row>, key: string)
    requires HasRow(with, key) && MoreThanKey(with[KeyPos(with, key)]) && !HasRow(without, key)
    ensures !(Synced(view, with) && Synced(view, without))
  {
  }

  // ----- A run in which it happens -----

  lemma UpdatedHas(r: Row, fields: Fields, now: string, n: string)
    requires n in fields && !Reserved(n)
    ensures n in UpdatedRow(r, fields, now).fields
  {
    if n !in r.fields { assert n in Changes(r, fields); }
  }

  /** Setting fields leaves the row there with the new ones, and no row goes. */
  lemma SetFieldsLeaves(t: Table, key: string, fields: Fields, clock: Clock, n: string)
    requires HasRow(t.rows, key) && n in fields && !Reserved(n)
    ensures var rows := SetFields(t, key, fields, clock).table.rows;
      && HasRow(rows, key) && n in FieldsOf(rows, key)
      && (forall k :: HasRow(t.rows, k) ==> HasRow(rows, k))
  {
    var rows := SetFields(t, key, fields, clock).table.rows;
    UpdatedHas(t.rows[KeyPos(t.rows, key)], fields, clock(t.ticks), n);
    forall k ensures KeyPos(t.rows, k) == KeyPos(rows, k) { KeyPosSame(t.rows, rows, k); }
  }

  lemma UpdateLeaves(t: Table, key: string, fields: Fields, clock: Clock, n: string)
    requires Good(t) && n in fields && !Reserved(n)
    ensures var rows := UpdateRow(t, key, fields, clock).table.rows;
      && HasRow(rows, key) && n in FieldsOf(rows, key)
      && (forall k :: HasRow(t.rows, k) ==> HasRow(rows, k))
  {
    UpdateRowParts(t, key, fields, clock);
    var a := AddRow(t, key).table;
    var b := AddColumns(a, Ordinary(Listing(fields.Keys)), clock).table;
    forall k | HasRow(t.rows, k) ensures HasRow(b.rows, k) {
      assert a.rows[KeyPos(t.rows, k)].key == k;
      KeyPosSame(a.rows, b.rows, k);
    }
    SetFieldsLeaves(b, key, fields, clock, n);
  }

  lemma Then(name: string, clock: Clock, w: World, a: Action, rest: seq<Action>)
    requires Enabled(name, w, a) && Possible(name, clock, Next(name, clock, w, a), rest)
    ensures Possible(name, clock, w, [a] + rest)
    ensures Run(name, clock, w, [a] + rest) == Run(name, clock, Next(name, clock, w, a), rest)
  {
    assert ([a] + rest)[1..] == rest;
  }

  /** A row with a field `x` appears under `key`. */
  function Appears(key: string, s: nat): Action {
    Change(Update(key, map["x" := "1"]), {s})
  }

  predicate Holds(w: World, key: string) {
    HasRow(w.table.rows, key) && MoreThanKey(w.table.rows[KeyPos(w.table.rows, key)])
  }

  lemma RowAppears(name: string, clock: Clock, w: World, key: string, s: nat)
    requires Good(w.table)
    ensures var w1 := Next(name, clock, w, Appears(key, s));
      && Good(w1.table) && w1.snapped == w.snapped && Holds(w1, key)
      && (forall k :: HasRow(w.table.rows, k) ==> HasRow(w1.table.rows, k))
  {
    assert |"x"| != |ROW_KEY| && |"x"| != |ROW_LAST|;
    DoKeepsGood(w.table, Update(key, map["x" := "1"]), clock);
    UpdateLeaves(w.table, key, map["x" := "1"], clock, "x");
  }

  /** One row is there, another appears, and one of them is deleted. */
  lemma LastTwo(name: string, clock: Clock, w: World, s: nat, fold: seq<Message> -> View) returns (rest: seq<Action>)
    requires Good(w.table) && HasRow(w.table.rows, "a") && s in w.snapped
    ensures Possible(name, clock, w, rest) && forall a :: a in rest ==> Watching(a, s)
    ensures var v := Run(name, clock, w, rest); s in v.snapped && !Synced(fold(Inbox(v.sent, s)), v.table.rows)
  {
    RowAppears(name, clock, w, "b", s);
    var w1 := Next(name, clock, w, Appears("b", s));
    rest := LastOne(name, clock, w1, s, fold);
    Then(name, clock, w, Appears("b", s), rest);
    rest := [Appears("b", s)] + rest;
  }

  lemma LastOne(name: string, clock: Clock, w: World, s: nat, fold: seq<Message> -> View) returns (rest: seq<Action>)
    requires Good(w.table) && HasRow(w.table.rows, "a") && Holds(w, "b") && s in w.snapped
    ensures Possible(name, clock, w, rest) && forall a :: a in rest ==> Watching(a, s)
    ensures var v := Run(name, clock, w, rest); s in v.snapped && !Synced(fold(Inbox(v.sent, s)), v.table.rows)
  {
    assert "a"[0] != "b"[0];
    DeletionsSoundAlike(name, clock, w, {s}, s, "a", "b", fold);
    var wa := Next(name, clock, w, Change(Delete("a"), {s}));
    var last := Change(Delete(if Synced(fold(Inbox(wa.sent, s)), wa.table.rows) then "b" else "a"), {s});
    rest := [last] + [];
    Then(name, clock, w, last, []);
  }

  /** No way of receiving messages can follow deletions: however a subscriber folds everything it
      has received, there is a run of the table, with the subscriber listed and sent a whole
      snapshot, after which it is wrong. */
  lemma NobodyCanFollowDeletions(name: string, clock: Clock, s: nat, fold: seq<Message> -> View) returns (actions: seq<Action>)
    ensures Possible(name, clock, NewWorld, actions) && forall a :: a in actions ==> Watching(a, s)
    ensures var w := Run(name, clock, NewWorld, actions);
      s in w.snapped && !Synced(fold(Inbox(w.sent, s)), w.table.rows)
  {
    var w1 := Next(name, clock, NewWorld, Subscribe(s, DESCRIPTION, Some([])));
    RowAppears(name, clock, w1, "a", s);
    var w2 := Next(name, clock, w1, Appears("a", s));
    actions := LastTwo(name, clock, w2, s, fold);
    Then(name, clock, w1, Appears("a", s), actions);
    actions := [Appears("a", s)] + actions;
    Then(name, clock, NewWorld, Subscribe(s, DESCRIPTION, Some([])), actions);
    actions := [Subscribe(s, DESCRIPTION, Some([]))] + actions;
  }

  const DESCRIPTION := Message("tabledescr", [])
}
