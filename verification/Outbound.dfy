/** The sending half of a connection: a bounded queue that any thread appends to and the reactor
    drains into the socket, with a close sentinel (libexio/Client.cc). Every critical section is one
    step, so a run is any interleaving of queue and handle_output. */
module Outbound {
  import Framing

  /** A message or what is left of it; CloseMark is the empty RawMsg that asks for a close. */
  datatype OutItem = Data(bytes: string) | CloseMark

  /** m_out_pend_max. */
  const MAX_PENDING := 104857600

  /** Where the reactor is inside handle_output: about to look at the queue, or between looking
      and accounting for the bytes the socket took. */
  datatype OutputPc = Looking | Sending

  datatype Out = Out(
    items: seq<OutItem>,
    itemcount: nat,
    acceptMore: bool,
    pending: nat,
    pc: OutputPc,
    accepted: string,      // the messages queue has accepted, one after the other
    sent: string,          // the bytes the socket has taken
    closeReached: bool)    // handle_output has taken the sentinel

  const Empty := Out([], 0, true, 0, Looking, "", "", false)

  datatype Action =
    | Queue(buf: string, close: bool)
    | Look                           // first critical section of handle_output
    | SocketTook(n: nat)             // send returned n, second critical section
    | SocketRefused                  // send failed, or would block

  /** Return values of queue. */
  datatype QueueResult = Accepted | Dropped | Refused

  function Bytes(items: seq<OutItem>): string {
    if items == [] then ""
    else (if items[0].Data? then items[0].bytes else "") + Bytes(items[1..])
  }

  // ----- queue -----

  function QueueCode(o: Out, buf: string): QueueResult {
    if !o.acceptMore then Refused
    else if buf != "" && |buf| > MAX_PENDING - o.pending then Dropped
    else Accepted
  }

  function AddData(o: Out, buf: string): Out {
    if buf == "" then o
    else o.(items := o.items + [Data(buf)], itemcount := o.itemcount + 1,
            pending := o.pending + |buf|, accepted := o.accepted + buf)
  }

  function AddClose(o: Out, close: bool): Out {
    if !close then o
    else o.(acceptMore := false, items := o.items + [CloseMark], itemcount := o.itemcount + 1)
  }

  function Queued(o: Out, buf: string, close: bool): Out {
    match QueueCode(o, buf)
    case Refused => o
    case Dropped => o.(acceptMore := false)
    case Accepted => AddClose(AddData(o, buf), close)
  }

  // ----- handle_output -----

  function Looked(o: Out): Out {
    if o.items == [] then o
    else if o.items[0].CloseMark? then
      o.(items := o.items[1..], itemcount := if o.itemcount == 0 then 0 else o.itemcount - 1, closeReached := true)
    else o.(pc := Sending)
  }

  /** Subtraction clamped at zero, as the source writes it. */
  function Clamped(pending: nat, n: nat): nat {
    if pending > n then pending - n else 0
  }

  function Took(o: Out, n: nat): Out
    requires o.items != [] && o.items[0].Data? && n <= |o.items[0].bytes|
  {
    var left := o.items[0].bytes[n..];
    var o' := o.(pc := Looking, pending := Clamped(o.pending, n), sent := o.sent + o.items[0].bytes[..n]);
    if left == "" then
      o'.(items := o.items[1..], itemcount := if o.itemcount == 0 then 0 else o.itemcount - 1)
    else o'.(items := o.items[0 := Data(left)])
  }

  predicate Enabled(o: Out, a: Action) {
    match a
    case Queue(_, _) => true
    case Look => o.pc.Looking?
    case SocketTook(n) => o.pc.Sending? && o.items != [] && o.items[0].Data? && n <= |o.items[0].bytes|
    case SocketRefused => o.pc.Sending?
  }

  function Apply(o: Out, a: Action): Out
    requires Enabled(o, a)
  {
    match a
    case Queue(buf, close) => Queued(o, buf, close)
    case Look => Looked(o)
    case SocketTook(n) => Took(o, n)
    case SocketRefused => o.(pc := Looking)
  }

  predicate Possible(o: Out, run: seq<Action>)
    decreases |run|
  {
    run == [] || (Enabled(o, run[0]) && Possible(Apply(o, run[0]), run[1..]))
  }

  function Run(o: Out, run: seq<Action>): Out
    requires Possible(o, run)
    decreases |run|
  {
    if run == [] then o else Run(Apply(o, run[0]), run[1..])
  }

  // ----- The invariant -----

  predicate Inv(o: Out) {
    && o.sent + Bytes(o.items) == o.accepted
    && o.pending == |Bytes(o.items)| <= MAX_PENDING
    && o.itemcount == |o.items|
    && (forall i :: 0 <= i < |o.items| && o.items[i].Data? ==> o.items[i].bytes != "")
    && (forall i :: 0 <= i < |o.items| && o.items[i].CloseMark? ==> i == |o.items| - 1)
    && (CloseMark in o.items ==> !o.acceptMore && !o.closeReached)
    && (o.closeReached ==> !o.acceptMore && o.items == [])
    && (o.pc.Sending? ==> o.items != [] && o.items[0].Data?)
  }

  lemma {:induction false} BytesAppend(items: seq<OutItem>, it: OutItem)
    ensures Bytes(items + [it]) == Bytes(items) + (if it.Data? then it.bytes else "")
    decreases |items|
  {
    if items == [] {
      assert items + [it] == [it];
      assert Bytes([it]) == (if it.Data? then it.bytes else "") + Bytes([]);
    } else {
      assert (items + [it])[1..] == items[1..] + [it];
      BytesAppend(items[1..], it);
      Framing.ConcatAssociates(if items[0].Data? then items[0].bytes else "", Bytes(items[1..]), if it.Data? then it.bytes else "");
    }
  }

  lemma AddDataKeeps(o: Out, buf: string)
    requires Inv(o) && QueueCode(o, buf).Accepted?
    ensures Inv(AddData(o, buf))
  {
    BytesAppend(o.items, Data(buf));
    Framing.ConcatAssociates(o.sent, Bytes(o.items), buf);
  }

  lemma AddCloseKeeps(o: Out, close: bool)
    requires Inv(o) && o.acceptMore
    ensures Inv(AddClose(o, close))
  {
    BytesAppend(o.items, CloseMark);
    assert Bytes(o.items) + "" == Bytes(o.items);
  }

  lemma TookKeeps(o: Out, n: nat)
    requires Inv(o) && Enabled(o, SocketTook(n))
    ensures Inv(Took(o, n))
    ensures Clamped(o.pending, n) == o.pending - n
  {
    var b := o.items[0].bytes;
    assert Bytes(o.items) == b + Bytes(o.items[1..]);
    assert b == b[..n] + b[n..];
    Framing.ConcatAssociates(b[..n], b[n..], Bytes(o.items[1..]));
    Framing.ConcatAssociates(o.sent, b[..n], b[n..] + Bytes(o.items[1..]));
    if b[n..] == "" {
      assert b[n..] + Bytes(o.items[1..]) == Bytes(o.items[1..]);
    } else {
      var items' := o.items[0 := Data(b[n..])];
      assert items'[1..] == o.items[1..];
    }
  }

  lemma LookedKeeps(o: Out)
    requires Inv(o) && o.pc.Looking?
    ensures Inv(Looked(o))
    ensures Looked(o).closeReached && !o.closeReached ==> o.sent == o.accepted && Looked(o).items == []
  {
    if o.items != [] && o.items[0].CloseMark? {
      assert o.items == [CloseMark];
      assert Bytes(o.items) == "" + Bytes([]);
    }
  }

  lemma StepKeeps(o: Out, a: Action)
    requires Inv(o) && Enabled(o, a)
    ensures Inv(Apply(o, a))
  {
    match a
    case Queue(buf, close) =>
      if QueueCode(o, buf).Accepted? {
        AddDataKeeps(o, buf);
        AddCloseKeeps(AddData(o, buf), close);
      }
    case Look => LookedKeeps(o);
    case SocketTook(n) => TookKeeps(o, n);
    case SocketRefused =>
  }

  lemma {:induction false} RunKeeps(o: Out, run: seq<Action>)
    requires Inv(o) && Possible(o, run)
    ensures Inv(Run(o, run))
    decreases |run|
  {
    if run != [] {
      StepKeeps(o, run[0]);
      RunKeeps(Apply(o, run[0]), run[1..]);
    }
  }

  /** Over every interleaving: the bytes sent followed by the bytes queued are the accepted
      messages; the byte count is exact and bounded; the sentinel is last, nothing is accepted
      after it, and when it has been reached everything accepted has been sent. */
  lemma Conservation(run: seq<Action>)
    requires Possible(Empty, run)
    ensures var o := Run(Empty, run);
            && o.sent + Bytes(o.items) == o.accepted
            && o.pending == |Bytes(o.items)| <= MAX_PENDING
            && (forall i :: 0 <= i < |o.items| && o.items[i].CloseMark? ==> i == |o.items| - 1 && !o.acceptMore)
            && (o.closeReached ==> o.sent == o.accepted && !o.acceptMore)
  {
    RunKeeps(Empty, run);
    var o := Run(Empty, run);
    assert o.closeReached ==> o.sent + "" == o.sent;
  }

  /** The clamp of the byte count never changes the result. */
  lemma ClampNeverFires(run: seq<Action>, n: nat)
    requires Possible(Empty, run) && Enabled(Run(Empty, run), SocketTook(n))
    ensures var o := Run(Empty, run); n <= o.pending && Clamped(o.pending, n) == o.pending - n
  {
    RunKeeps(Empty, run);
    TookKeeps(Run(Empty, run), n);
  }

  /** A closed queue stays closed: no run accepts another byte. */
  lemma {:induction false} NothingAfterClose(o: Out, run: seq<Action>)
    requires !o.acceptMore && Possible(o, run)
    ensures !Run(o, run).acceptMore && Run(o, run).accepted == o.accepted
    decreases |run|
  {
    if run != [] { NothingAfterClose(Apply(o, run[0]), run[1..]); }
  }

  /** What `queue` promises: a message is taken over whole exactly when the queue still accepts and
      the message does not push the unsent bytes over the bound; a message that would is the end of
      accepting; and the sentinel goes behind the message. */
  lemma QueueAccepts(o: Out, buf: string, close: bool)
    requires Inv(o)
    ensures var o' := Apply(o, Queue(buf, close));
      var fits := o.acceptMore && |Bytes(o.items)| + |buf| <= 104857600;
      && (fits ==> o'.accepted == o.accepted + buf && o'.acceptMore == !close)
      && (fits ==> Bytes(o'.items) == Bytes(o.items) + buf && (CloseMark in o'.items <==> close))
      && (!fits ==> o'.accepted == o.accepted && o'.items == o.items && !o'.acceptMore)
      && (!o.acceptMore ==> o' == o)
  {
    if QueueCode(o, buf).Accepted? {
      assert buf == "" ==> o.accepted + buf == o.accepted && Bytes(o.items) + buf == Bytes(o.items);
      BytesAppend(o.items, Data(buf));
      var d := AddData(o, buf);
      BytesAppend(d.items, CloseMark);
      assert Bytes(d.items) + "" == Bytes(d.items);
    }
  }

  predicate NoClose(run: seq<Action>) {
    forall i :: 0 <= i < |run| && run[i].Queue? ==> !run[i].close
  }

  /** As long as nobody asks for a close and everything offered fits the bound, all of it is
      accepted, whatever the socket does. */
  lemma {:induction false} EverythingIsAccepted(o: Out, run: seq<Action>)
    requires Inv(o) && o.acceptMore && Possible(o, run) && NoClose(run)
    requires |Bytes(o.items)| + |Offered(run)| <= MAX_PENDING
    ensures Run(o, run).accepted == o.accepted + Offered(run) && Run(o, run).acceptMore
    decreases |run|
  {
    if run == [] {
      assert o.accepted + "" == o.accepted;
    } else {
      var o1 := Apply(o, run[0]);
      var buf := if run[0].Queue? then run[0].buf else "";
      StepKeeps(o, run[0]);
      if run[0].Queue? {
        QueueAccepts(o, buf, false);
        assert run[0] == Queue(buf, false);
      } else {
        SocketOnlyTakes(o, run[0]);
        assert o.accepted + "" == o.accepted;
      }
      assert NoClose(run[1..]) by {
        forall i | 0 <= i < |run[1..]| && run[1..][i].Queue? ensures !run[1..][i].close { assert run[1..][i] == run[i + 1]; }
      }
      EverythingIsAccepted(o1, run[1..]);
      Framing.ConcatAssociates(o.accepted, buf, Offered(run[1..]));
    }
  }

  lemma SocketOnlyTakes(o: Out, a: Action)
    requires Inv(o) && Enabled(o, a) && !a.Queue?
    ensures var o' := Apply(o, a);
      o'.accepted == o.accepted && o'.acceptMore == o.acceptMore && |Bytes(o'.items)| <= |Bytes(o.items)|
  {
    StepKeeps(o, a);
    var o' := Apply(o, a);
    assert |o.sent| <= |o'.sent|;
    assert |o.sent| + |Bytes(o.items)| == |o.accepted|;
    assert |o'.sent| + |Bytes(o'.items)| == |o'.accepted|;
  }

  /** From the start: without a close, at most the bound offered is all accepted; and all sent once
      nothing is left in the queue. */
  lemma SmallRunsAreSent(run: seq<Action>)
    requires Possible(Empty, run) && NoClose(run) && |Offered(run)| <= MAX_PENDING
    ensures var o := Run(Empty, run);
      && o.accepted == Offered(run) && o.acceptMore
      && o.sent + Bytes(o.items) == Offered(run)
  {
    EverythingIsAccepted(Empty, run);
    assert "" + Offered(run) == Offered(run);
    Conservation(run);
  }

  /** Everything a run hands to queue, one after the other. */
  function Offered(run: seq<Action>): string {
    if run == [] then "" else (if run[0].Queue? then run[0].buf else "") + Offered(run[1..])
  }

  /** What is accepted is an initial part of what is offered, and all of it as long as the queue
      accepts more. */
  lemma {:induction false} AcceptedIsPrefix(o: Out, run: seq<Action>)
    requires Possible(o, run)
    ensures Run(o, run).accepted <= o.accepted + Offered(run)
    ensures Run(o, run).acceptMore ==> Run(o, run).accepted == o.accepted + Offered(run)
    decreases |run|
  {
    if run == [] {
      assert o.accepted + "" == o.accepted;
    } else {
      var o1 := Apply(o, run[0]);
      AcceptedIsPrefix(o1, run[1..]);
      var buf := if run[0].Queue? then run[0].buf else "";
      Framing.ConcatAssociates(o.accepted, buf, Offered(run[1..]));
      if run[0].Queue? && !QueueCode(o, buf).Accepted? {
        NothingAfterClose(o1, run[1..]);
      } else {
        assert o1.accepted == o.accepted + buf;
      }
    }
  }

  /** The bytes that reach the socket are an initial part of those offered. */
  lemma SentIsPrefix(run: seq<Action>)
    requires Possible(Empty, run)
    ensures var o := Run(Empty, run);
      && o.sent <= Offered(run)
      && (o.acceptMore && Bytes(o.items) == "" ==> o.sent == Offered(run))
  {
    AcceptedIsPrefix(Empty, run);
    Conservation(run);
    var o := Run(Empty, run);
    assert "" + Offered(run) == Offered(run);
    assert o.sent <= o.accepted;
    assert o.sent + "" == o.sent;
  }

  // ----- One call of handle_output -----

  /** What handle_output asks of the reactor. */
  datatype IoState = IoDefault | IoClose

  function AtMost(n: nat, max: nat): nat {
    if n > max then max else n
  }

  /** handle_output without interference: `sends` are the results of the send calls; a negative one
      is an error, a missing one means the call would block. */
  function Drained(o: Out, sends: seq<int>): (Out, IoState)
    decreases |sends|
  {
    if o.items == [] then (o, IoDefault)
    else if o.items[0].CloseMark? then (Looked(o), IoClose)
    else if sends == [] then (o, IoDefault)
    else if sends[0] < 0 then (o, IoClose)
    else Drained(Took(o, AtMost(sends[0], |o.items[0].bytes|)), sends[1..])
  }

  /** A call accepts nothing and loses nothing; it takes the sentinel only when everything accepted
      has been sent, and then asks for a close. */
  lemma {:induction false} DrainedKeeps(o: Out, sends: seq<int>)
    requires Inv(o) && o.pc.Looking? && !o.closeReached
    ensures var (d, io) := Drained(o, sends);
      && Inv(d) && d.accepted == o.accepted && d.acceptMore == o.acceptMore
      && (d.closeReached ==> io.IoClose? && d.sent == d.accepted)
      && (io.IoClose? && (forall i :: 0 <= i < |sends| ==> sends[i] >= 0) ==> d.closeReached)
    decreases |sends|
  {
    if o.items != [] {
      LookedKeeps(o);
      if o.items[0].Data? && sends != [] && sends[0] >= 0 {
        var n := AtMost(sends[0], |o.items[0].bytes|);
        TookKeeps(o.(pc := Sending), n);
        assert Took(o.(pc := Sending), n) == Took(o, n);
        DrainedKeeps(Took(o, n), sends[1..]);
      }
    }
  }

  /** When the socket takes whole items and never blocks, one call sends everything accepted, and
      asks for a close exactly when the sentinel was waiting. */
  lemma {:induction false} DrainsEverything(o: Out, sends: seq<int>)
    requires Inv(o) && o.pc.Looking? && |sends| >= |o.items|
    requires forall i :: 0 <= i < |sends| ==> sends[i] >= MAX_PENDING
    ensures var (d, io) := Drained(o, sends);
      d.items == [] && d.sent == o.accepted && (io.IoClose? <==> CloseMark in o.items)
    decreases |sends|
  {
    if o.items == [] {
      assert o.sent + "" == o.sent;
    } else if o.items[0].CloseMark? {
      LookedKeeps(o);
      assert o.items == [CloseMark];
      assert Bytes(o.items) == "" + Bytes([]);
      assert o.sent + "" == o.sent;
    } else {
      var b := o.items[0].bytes;
      FrontFits(o);
      assert AtMost(sends[0], |b|) == |b| && b[|b|..] == "";
      TookKeeps(o.(pc := Sending), |b|);
      assert Took(o.(pc := Sending), |b|) == Took(o, |b|);
      DrainsEverything(Took(o, |b|), sends[1..]);
      assert o.items == [o.items[0]] + o.items[1..];
    }
  }

  lemma FrontFits(o: Out)
    requires Inv(o) && o.items != [] && o.items[0].Data?
    ensures |o.items[0].bytes| <= MAX_PENDING
  {
    assert Bytes(o.items) == o.items[0].bytes + Bytes(o.items[1..]);
  }

  // ----- The code -----

  class OutboundQueue {
    var items: seq<OutItem>
    var itemcount: nat
    var acceptMore: bool
    var pending: nat
    var shutdown: bool
    ghost var pc: OutputPc
    ghost var accepted: string
    ghost var sent: string
    ghost var closeReached: bool

    ghost function Abs(): Out
      reads this
    {
      Out(items, itemcount, acceptMore, pending, pc, accepted, sent, closeReached)
    }

    constructor ()
      ensures Abs() == Empty && !shutdown
    {
      items, itemcount, acceptMore, pending, shutdown := [], 0, true, 0, false;
      pc, accepted, sent, closeReached := Looking, "", "", false;
    }

    /** queue(buf, size, closesocket): 0, -1 or -2 as Accepted, Dropped and Refused. */
    method QueueData(buf: string, close: bool) returns (r: QueueResult)
      requires Inv(Abs())
      modifies this
      ensures r.Refused? <==> !old(acceptMore)
      ensures r.Accepted? <==> old(acceptMore) && old(pending) + |buf| <= MAX_PENDING
      ensures Abs() == Apply(old(Abs()), Queue(buf, close)) && Inv(Abs())
      ensures shutdown == (old(shutdown) || r.Dropped?)
    {
      StepKeeps(Abs(), Queue(buf, close));
      if !acceptMore { return Refused; }
      if buf != "" {
        if |buf| > MAX_PENDING - pending {
          acceptMore, shutdown := false, true;
          return Dropped;
        }
        items := items + [Data(buf)];
        itemcount, pending := itemcount + 1, pending + |buf|;
        accepted := accepted + buf;
      }
      if close {
        acceptMore := false;
        items := items + [CloseMark];
        itemcount := itemcount + 1;
      }
      r := Accepted;
    }

    /** The first critical section of handle_output: the front item, or nothing, or the sentinel,
        which is taken off at once. */
    method LookAtFront() returns (front: Front)
      requires Inv(Abs()) && pc.Looking?
      modifies this
      ensures Abs() == Apply(old(Abs()), Look) && Inv(Abs())
      ensures shutdown == (old(shutdown) || front.TookClose?)
      ensures front == if old(items) == [] then NoItem else if old(items)[0].CloseMark? then TookClose else Next(old(items)[0].bytes)
    {
      LookedKeeps(Abs());
      if itemcount == 0 && items == [] {
        return NoItem;
      }
      if items[0].CloseMark? {
        items, itemcount := items[1..], itemcount - 1;
        closeReached, shutdown := true, true;
        return TookClose;
      }
      pc := Sending;
      front := Next(items[0].bytes);
    }

    /** The second critical section: the socket took `n` bytes of the front item. */
    method AccountFor(n: nat)
      requires Inv(Abs()) && Enabled(Abs(), SocketTook(n))
      modifies this
      ensures Abs() == Apply(old(Abs()), SocketTook(n)) && Inv(Abs()) && shutdown == old(shutdown)
      ensures pending == old(pending) - n
    {
      TookKeeps(Abs(), n);
      var front := items[0].bytes;
      sent, pc := sent + front[..n], Looking;
      pending := if pending > n then pending - n else 0;
      if |front| == n {
        items, itemcount := items[1..], itemcount - 1;
      } else {
        items := items[0 := Data(front[n..])];
      }
    }

    /** One turn of the loop of handle_output: `done` when it returns. */
    method OutputTurn(sends: seq<int>) returns (done: bool, io: IoState)
      requires Inv(Abs()) && pc.Looking?
      modifies this
      ensures Inv(Abs()) && pc.Looking?
      ensures done ==> (Abs(), io) == Drained(old(Abs()), sends)
      ensures !done ==> sends != [] && Drained(Abs(), sends[1..]) == Drained(old(Abs()), sends)
    {
      var front := LookAtFront();
      match front
      case NoItem => return true, IoDefault;
      case TookClose => return true, IoClose;
      case Next(bytes) =>
        if sends == [] || sends[0] < 0 {
          pc := Looking;
          return true, if sends == [] then IoDefault else IoClose;
        }
        AccountFor(AtMost(sends[0], |bytes|));
        assert Abs() == Took(old(Abs()), AtMost(sends[0], |bytes|));
        return false, IoDefault;
    }

    /** handle_output: drains the queue until it is empty, the socket would block, a send fails or
        the sentinel is reached. */
    method HandleOutput(sends: seq<int>) returns (io: IoState)
      requires Inv(Abs()) && pc.Looking?
      modifies this
      ensures Inv(Abs()) && pc.Looking?
      ensures (Abs(), io) == Drained(old(Abs()), sends)
    {
      var left := sends;
      var done := false;
      io := IoDefault;
      while !done
        invariant Inv(Abs()) && pc.Looking?
        invariant !done ==> Drained(Abs(), left) == Drained(old(Abs()), sends)
        invariant done ==> (Abs(), io) == Drained(old(Abs()), sends)
        decreases |left|, !done
      {
        done, io := OutputTurn(left);
        if !done { left := left[1..]; }
      }
    }
  }

  /** What the first critical section of handle_output finds. */
  datatype Front = NoItem | TookClose | Next(bytes: string)
}
