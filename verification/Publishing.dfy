/** What a table hands to its subscribers' sessions: the messages of its events, snapshots, and
    in which order (libexio/Table.cc, libexio/TableEvents.cc). */
module Publishing {
  import opened SamTree
  import opened TableModel
  import opened TableMessages
  import opened Snapshot

  /** One call of send_one. */
  datatype Delivery = Delivery(session: nat, msg: Message)

  /** The removal notice. Its RowKey field is written without a value. */
  function RowDelMessage(name: string): Message {
    Message(TABLE_ROW_DEL, [Node("head", [Field("msgtype", TABLE_ROW_DEL), Field("tablename", name), Field(ROW_KEY, "")])])
  }

  /** Only updates, removals and clearing have a message. */
  function EventMessages(name: string, e: Event): seq<Message> {
    match e
    case NewRow(_) => []
    case NewColumn(_) => []
    case RowMultiUpdate(key, fields) => [UpdateMessage(name, key, fields)]
    case RowRemoved(_) => [RowDelMessage(name)]
    case TableCleared => [TableClear(name)]
  }

  function Messages(name: string, events: seq<Event>): seq<Message> {
    if events == [] then [] else Messages(name, events[..|events| - 1]) + EventMessages(name, events[|events| - 1])
  }

  /** The subscribers whose session still exists, in order of subscription. */
  function Existing(subs: seq<nat>, live: set<nat>): seq<nat> {
    if subs == [] then []
    else Existing(subs[..|subs| - 1], live) + if subs[|subs| - 1] in live then [subs[|subs| - 1]] else []
  }

  function SendToAll(m: Message, subs: seq<nat>): seq<Delivery> {
    if subs == [] then [] else SendToAll(m, subs[..|subs| - 1]) + [Delivery(subs[|subs| - 1], m)]
  }

  /** Message by message, subscriber by subscriber. */
  function Broadcast(msgs: seq<Message>, subs: seq<nat>): seq<Delivery> {
    if msgs == [] then [] else Broadcast(msgs[..|msgs| - 1], subs) + SendToAll(msgs[|msgs| - 1], subs)
  }

  function SendList(msgs: seq<Message>, session: nat): seq<Delivery> {
    if msgs == [] then [] else SendList(msgs[..|msgs| - 1], session) + [Delivery(session, msgs[|msgs| - 1])]
  }

  // ----- The loops that produce these lists -----

  /** `RowRemoved::serialise`. */
  method SerialiseRemoval(name: string) returns (m: Message)
    ensures m == RowDelMessage(name)
  {
    var items := PutPath([], ["head", "msgtype"], TABLE_ROW_DEL);
    FirstPath("head", "msgtype", TABLE_ROW_DEL);
    NamesDiffer();
    SecondHeadField("msgtype", TABLE_ROW_DEL, "tablename", name);
    items := PutPath(items, ["head", "tablename"], name);
    RemovalKey(name);
    items := PutPath(items, ["head", ROW_KEY], "");
    m := Message(TABLE_ROW_DEL, items);
  }

  lemma RemovalKey(name: string)
    ensures PutPath([Node("head", [Field("msgtype", TABLE_ROW_DEL), Field("tablename", name)])], ["head", ROW_KEY], "")
         == RowDelMessage(name).items
  {
    var head := [Field("msgtype", TABLE_ROW_DEL), Field("tablename", name)];
    PutPathTwo([Node("head", head)], "head", ROW_KEY, "");
    assert "msgtype"[0] == 'm' && "tablename"[0] == 't' && ROW_KEY[0] == 'R';
    assert FieldPos(head, ROW_KEY) == 2;
    assert head + [Field(ROW_KEY, "")] == [Field("msgtype", TABLE_ROW_DEL), Field("tablename", name), Field(ROW_KEY, "")];
  }

  /** The first loop of `_nolock_publish_update`. */
  method SerialiseEvents(name: string, events: seq<Event>) returns (msgs: seq<Message>)
    ensures msgs == Messages(name, events)
  {
    msgs := [];
    var i := 0;
    while i < |events|
      invariant i <= |events| && msgs == Messages(name, events[..i])
    {
      assert events[..i + 1][..i] == events[..i];
      match events[i] {
        case RowMultiUpdate(key, fields) =>
          var m := SerialiseUpdate(name, key, fields);
          msgs := msgs + [m];
        case TableCleared =>
          var m := SerialiseClear(name);
          msgs := msgs + [m];
        case RowRemoved(_) =>
          var m := SerialiseRemoval(name);
          msgs := msgs + [m];
        case NewRow(_) =>
        case NewColumn(_) =>
      }
      i := i + 1;
    }
    assert events[..i] == events;
  }

  /** `copy_subscribers`. */
  method CopySubscribers(subscribers: seq<nat>, live: set<nat>) returns (subs: seq<nat>)
    ensures subs == Existing(subscribers, live)
  {
    subs := [];
    var i := 0;
    while i < |subscribers|
      invariant i <= |subscribers| && subs == Existing(subscribers[..i], live)
    {
      assert subscribers[..i + 1][..i] == subscribers[..i];
      if subscribers[i] in live { subs := subs + [subscribers[i]]; }
      i := i + 1;
    }
    assert subscribers[..i] == subscribers;
  }

  /** The nested send loops of `_nolock_publish_update`. */
  method SendMessages(msgs: seq<Message>, subs: seq<nat>) returns (out: seq<Delivery>)
    ensures out == Broadcast(msgs, subs)
  {
    out := [];
    var i := 0;
    while i < |msgs|
      invariant i <= |msgs| && out == Broadcast(msgs[..i], subs)
    {
      var j := 0;
      while j < |subs|
        invariant j <= |subs| && out == Broadcast(msgs[..i], subs) + SendToAll(msgs[i], subs[..j])
      {
        assert subs[..j + 1][..j] == subs[..j];
        out := out + [Delivery(subs[j], msgs[i])];
        j := j + 1;
      }
      assert subs[..j] == subs;
      assert msgs[..i + 1][..i] == msgs[..i];
      i := i + 1;
    }
    assert msgs[..i] == msgs;
  }

  /** send_one for a list of messages. */
  method SendEach(msgs: seq<Message>, session: nat) returns (out: seq<Delivery>)
    ensures out == SendList(msgs, session)
  {
    out := [];
    var i := 0;
    while i < |msgs|
      invariant i <= |msgs| && out == SendList(msgs[..i], session)
    {
      assert msgs[..i + 1][..i] == msgs[..i];
      out := out + [Delivery(session, msgs[i])];
      i := i + 1;
    }
    assert msgs[..i] == msgs;
  }

  // ----- A table and its subscribers as a state machine -----

  /** `snapped`: the sessions that have been sent a whole snapshot. */
  datatype World = World(table: Table, subs: seq<nat>, sent: seq<Delivery>, snapped: set<nat>)

  const NewWorld := World(EmptyTable, [], [], {})

  type Cut = seq<seq<Cells>>

  /** `cut` and `cuts` are the batches the snapshots were cut into, or None when the snapshot
      raised an error. `live` are the sessions that exist. `subs` is the copy of the subscribers
      that `snapshot` takes before it locks the table; others may subscribe in between. */
  datatype Action =
    | Change(op: Op, live: set<nat>)
    | Subscribe(session: nat, descr: Message, cut: Option<Cut>)
    | SnapshotAll(subs: seq<nat>, cuts: Option<seq<Cut>>)

  predicate GoodCut(name: string, rows: seq<Row>, cut: Cut) {
    Joined(cut) == ItemsOf(rows) && GoodBatches(name, cut)
  }

  predicate GoodCuts(name: string, rows: seq<Row>, cuts: seq<Cut>) {
    cuts == [] || (GoodCuts(name, rows, cuts[..|cuts| - 1]) && GoodCut(name, rows, cuts[|cuts| - 1]))
  }

  lemma {:induction false} GoodCutsMember(name: string, rows: seq<Row>, cuts: seq<Cut>, c: Cut)
    requires GoodCuts(name, rows, cuts) && c in cuts
    ensures GoodCut(name, rows, c)
  {
    var l := |cuts| - 1;
    if c != cuts[l] { GoodCutsMember(name, rows, cuts[..l], c); }
  }

  predicate Enabled(name: string, w: World, a: Action) {
    var possible := AllFitAlone(name, ItemsOf(w.table.rows));
    match a
    case Change(_, _) => true
    case Subscribe(_, descr, cut) =>
      && descr.mtype == "tabledescr"
      && cut.Some? == possible
      && (cut.Some? ==> GoodCut(name, w.table.rows, cut.value))
    case SnapshotAll(subs, cuts) =>
      && (forall x :: x in subs ==> x in w.subs)
      && cuts.Some? == (possible || subs == [])
      && (cuts.Some? ==> |cuts.value| == |subs| && GoodCuts(name, w.table.rows, cuts.value))
  }

  function Rounds(name: string, subs: seq<nat>, cuts: seq<Cut>): seq<Delivery>
    requires |subs| == |cuts|
  {
    if subs == [] then []
    else
      var l := |subs| - 1;
      Rounds(name, subs[..l], cuts[..l]) + SendList(SnapshotMessages(name, cuts[l]), subs[l])
  }

  /** The step of a table operation: the messages of its events go to the existing subscribers. */
  function Changed(name: string, w: World, s: Step, live: set<nat>): World {
    World(s.table, w.subs, w.sent + Broadcast(Messages(name, s.events), Existing(w.subs, live)), w.snapped)
  }

  /** The step of a subscription: listed, described, and sent a snapshot if one could be made. */
  function Subscribed(name: string, w: World, session: nat, descr: Message, cut: Option<Cut>): World {
    var first := w.sent + [Delivery(session, descr)];
    if cut.None? then World(w.table, w.subs + [session], first, w.snapped)
    else World(w.table, w.subs + [session], first + SendList(SnapshotMessages(name, cut.value), session), w.snapped + {session})
  }

  function Snapped(name: string, w: World, subs: seq<nat>, cuts: Option<seq<Cut>>): World
    requires cuts.Some? ==> |cuts.value| == |subs|
  {
    if cuts.None? then w
    else World(w.table, w.subs, w.sent + Rounds(name, subs, cuts.value), w.snapped + set s | s in subs)
  }

  function Next(name: string, clock: Clock, w: World, a: Action): World
    requires Enabled(name, w, a)
  {
    match a
    case Change(op, live) => Changed(name, w, Do(w.table, op, clock), live)
    case Subscribe(session, descr, cut) => Subscribed(name, w, session, descr, cut)
    case SnapshotAll(subs, cuts) => Snapped(name, w, subs, cuts)
  }

  /** The state after an action, if the action can happen. */
  function After(name: string, clock: Clock, w: World, a: Action): Option<World> {
    if Enabled(name, w, a) then Some(Next(name, clock, w, a)) else None
  }

  lemma AfterChange(name: string, clock: Clock, w: World, op: Op, live: set<nat>, s: Step, w': World)
    requires s == Do(w.table, op, clock) && w'.table == s.table && w'.subs == w.subs && w'.snapped == w.snapped
    requires w'.sent == w.sent + Broadcast(Messages(name, s.events), Existing(w.subs, live))
    ensures After(name, clock, w, Change(op, live)) == Some(w')
  {
  }

  lemma AfterSubscribe(name: string, clock: Clock, w: World, session: nat, descr: Message, cut: Option<Cut>,
                       out: seq<Delivery>, w': World)
    requires descr.mtype == "tabledescr" && cut.Some? == AllFitAlone(name, ItemsOf(w.table.rows))
    requires cut.Some? ==> GoodCut(name, w.table.rows, cut.value)
    requires w'.table == w.table && w'.subs == w.subs + [session]
    requires w'.sent == w.sent + [Delivery(session, descr)] + out
    requires cut.None? ==> out == [] && w'.snapped == w.snapped
    requires cut.Some? ==> out == SendList(SnapshotMessages(name, cut.value), session) && w'.snapped == w.snapped + {session}
    ensures After(name, clock, w, Subscribe(session, descr, cut)) == Some(w')
  {
    var first := w.sent + [Delivery(session, descr)];
    assert first + [] == first;
  }

  lemma AfterSnapshotAll(name: string, clock: Clock, w: World, subs: seq<nat>, cuts: Option<seq<Cut>>, w': World)
    requires cuts.Some? == (AllFitAlone(name, ItemsOf(w.table.rows)) || subs == []) && forall x :: x in subs ==> x in w.subs
    requires cuts.Some? ==> |cuts.value| == |subs| && GoodCuts(name, w.table.rows, cuts.value)
    requires w'.table == w.table && w'.subs == w.subs
    requires cuts.None? ==> w'.sent == w.sent && w'.snapped == w.snapped
    requires cuts.Some? ==> w'.sent == w.sent + Rounds(name, subs, cuts.value) && w'.snapped == w.snapped + set s | s in subs
    ensures After(name, clock, w, SnapshotAll(subs, cuts)) == Some(w')
  {
  }

  predicate Possible(name: string, clock: Clock, w: World, actions: seq<Action>)
    decreases |actions|
  {
    actions == [] || (Enabled(name, w, actions[0]) && Possible(name, clock, Next(name, clock, w, actions[0]), actions[1..]))
  }

  function Run(name: string, clock: Clock, w: World, actions: seq<Action>): World
    requires Possible(name, clock, w, actions)
    decreases |actions|
  {
    if actions == [] then w else Run(name, clock, Next(name, clock, w, actions[0]), actions[1..])
  }
}
