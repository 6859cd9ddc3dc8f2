/** The inbound path of one client under concurrency: the reactor thread queues chunks and closes,
    a worker runs do_work, any thread may release. Every critical section is one step, so a run is
    any interleaving (libexio/Client.cc). That at most one worker runs at a time is established in
    the Reactor module. */
module InboundProtocol {
  import opened Framing
  import opened Inbound

  /** Callbacks into the session, and the moments at which callbacks are switched off. */
  datatype Event =
    | Input(bytes: string, consumed: nat)
    | Closed(tail: string)     // process_close, with the bytes still in the buffer
    | Released

  /** Where the worker is inside do_work. */
  datatype WorkerPc = Idle | Drain | Offer(close: bool) | CallClose | Clear

  datatype State = State(
    fifo: seq<string>,         // the empty chunk is the close sentinel
    ioClosed: bool,
    callbacks: bool,
    buffer: string,
    pc: WorkerPc,
    received: string,          // every byte read from the socket
    dropped: bool,             // queued chunks have been thrown away
    trace: seq<Event>)

  const Init := State([], false, true, "", Idle, "", false, [])

  datatype Action =
    | Read(bytes: string)                      // handle_input
    | CloseIo                                  // handle_close
    | Release                                  // release, from any thread
    | Start                                    // do_work: look at the callback pointer
    | TakeChunks                               // copy the queue into the buffer
    | OfferInput(n: nat, releases: bool)       // process_input; the callback may release
    | Stop                                     // nothing (more) to offer
    | ProcessClose(releases: bool)             // process_close
    | ClearQueue

  function AfterSentinel(fifo: seq<string>): seq<string> {
    if fifo == [] then [] else if fifo[0] == SENTINEL then fifo[1..] else AfterSentinel(fifo[1..])
  }

  predicate Enabled(s: State, a: Action) {
    match a
    case Read(bytes) => !s.ioClosed && bytes != ""
    case CloseIo => true
    case Release => true
    case Start => s.pc.Idle?
    case TakeChunks => s.pc.Drain?
    case OfferInput(n, _) => s.pc.Offer? && s.buffer != "" && s.callbacks && n <= |s.buffer|
    case Stop => s.pc.Offer? && (s.buffer == "" || !s.callbacks)
    case ProcessClose(_) => s.pc.CallClose?
    case ClearQueue => s.pc.Clear?
  }

  function Finish(s: State): State
    requires s.pc.Offer?
  {
    s.(pc := if s.pc.close then CallClose else Idle)
  }

  function Switched(s: State, off: bool): State {
    if off then s.(callbacks := false, trace := s.trace + [Released]) else s
  }

  function Apply(s: State, a: Action): State
    requires Enabled(s, a)
  {
    match a
    case Read(bytes) => s.(fifo := s.fifo + [bytes], received := s.received + bytes)
    case CloseIo => if s.ioClosed then s else s.(ioClosed := true, fifo := s.fifo + [SENTINEL])
    case Release => Switched(s, true)
    case Start => if s.callbacks then s.(pc := Drain) else s.(fifo := [], dropped := true)
    case TakeChunks =>
      s.(buffer := s.buffer + Flatten(Taken(s.fifo)),
         fifo := AfterSentinel(s.fifo),
         pc := Offer(SENTINEL in s.fifo))
    case OfferInput(n, releases) =>
      var t := Switched(s.(buffer := s.buffer[n..], trace := s.trace + [Input(s.buffer, n)]), releases);
      if n == 0 then Finish(t) else t
    case Stop => Finish(s)
    case ProcessClose(releases) =>
      var t := if s.callbacks then Switched(s.(trace := s.trace + [Closed(s.buffer)]), releases) else s;
      t.(callbacks := false, pc := Clear)
    case ClearQueue => s.(fifo := [], dropped := true, pc := Idle)
  }

  predicate Possible(s: State, run: seq<Action>)
    decreases |run|
  {
    run == [] || (Enabled(s, run[0]) && Possible(Apply(s, run[0]), run[1..]))
  }

  function Run(s: State, run: seq<Action>): State
    requires Possible(s, run)
    decreases |run|
  {
    if run == [] then s else Run(Apply(s, run[0]), run[1..])
  }

  // ----- What the trace must look like -----

  /** process_input any number of times, then process_close at most once, then nothing; and
      nothing after a release. */
  predicate WellOrdered(t: seq<Event>) {
    forall i, j :: 0 <= i < j < |t| && !t[i].Input? ==> t[j].Released?
  }

  /** The bytes the session has accepted so far. */
  function Eaten(t: seq<Event>): string {
    if t == [] then ""
    else
      var last := t[|t| - 1];
      Eaten(t[..|t| - 1]) + (if last.Input? && last.consumed <= |last.bytes| then last.bytes[..last.consumed] else "")
  }

  /** Every process_input is offered the stream from exactly where the previous ones left off. */
  predicate OffersInOrder(t: seq<Event>, received: string) {
    forall i :: 0 <= i < |t| ==> Offered(t[..i], t[i], received)
  }

  predicate Offered(before: seq<Event>, e: Event, received: string) {
    e.Input? ==> e.consumed <= |e.bytes| && e.bytes != "" && Eaten(before) + e.bytes <= received
  }

  /** When process_close is called, every byte read has been accepted or was offered in the
      callback just before. */
  predicate ClosesLast(t: seq<Event>, received: string) {
    forall i :: 0 <= i < |t| ==> ClosedWell(t[..i], t[i], received)
  }

  predicate ClosedWell(before: seq<Event>, e: Event, received: string) {
    e.Closed? ==>
      && Eaten(before) + e.tail == received
      && (e.tail == "" || (before != [] && before[|before| - 1] == Input(e.tail, 0)))
  }

  // ----- The inductive invariant -----

  predicate SentinelLast(s: State) {
    && (forall i :: 0 <= i < |s.fifo| && s.fifo[i] == SENTINEL ==> i == |s.fifo| - 1)
    && (SENTINEL in s.fifo ==> s.ioClosed)
    && (Closing(s.pc) ==> s.ioClosed && s.fifo == [])
  }

  predicate Closing(pc: WorkerPc) {
    pc.CallClose? || pc.Clear? || (pc.Offer? && pc.close)
  }

  /** Nothing is lost while callbacks are on. */
  predicate Conserved(s: State) {
    !s.dropped ==> Eaten(s.trace) + s.buffer + Flatten(s.fifo) == s.received
  }

  /** About to call process_close with callbacks on: the buffer has just been offered in vain. */
  predicate ReadyToClose(s: State) {
    s.pc.CallClose? && s.callbacks ==>
      s.buffer == "" || (s.trace != [] && s.trace[|s.trace| - 1] == Input(s.buffer, 0))
  }

  predicate Inv(s: State) {
    && SentinelLast(s)
    && (s.dropped ==> !s.callbacks)
    && (s.pc.Clear? ==> !s.callbacks)
    && (s.callbacks ==> forall i :: 0 <= i < |s.trace| ==> s.trace[i].Input?)
    && ((exists i :: 0 <= i < |s.trace| && s.trace[i].Closed?) ==> s.ioClosed)
    && Conserved(s)
    && ReadyToClose(s)
    && WellOrdered(s.trace)
    && OffersInOrder(s.trace, s.received)
    && ClosesLast(s.trace, s.received)
  }

  // ----- One event more -----

  lemma EatenAppend(t: seq<Event>, e: Event)
    ensures Eaten(t + [e]) == Eaten(t) + (if e.Input? && e.consumed <= |e.bytes| then e.bytes[..e.consumed] else "")
  {
    assert (t + [e])[..|t|] == t;
  }

  /** The claims about earlier events are not touched by a later one. */
  lemma AppendKeeps(t: seq<Event>, e: Event, received: string)
    requires WellOrdered(t) && OffersInOrder(t, received) && ClosesLast(t, received)
    requires (forall i :: 0 <= i < |t| ==> t[i].Input?) || e.Released?
    requires Offered(t, e, received) && ClosedWell(t, e, received)
    ensures WellOrdered(t + [e]) && OffersInOrder(t + [e], received) && ClosesLast(t + [e], received)
  {
    var u := t + [e];
    forall i | 0 <= i < |u| ensures Offered(u[..i], u[i], received) && ClosedWell(u[..i], u[i], received) {
      if i < |t| {
        assert u[..i] == t[..i] && u[i] == t[i];
      } else {
        assert u[..i] == t;
      }
    }
  }

  /** More bytes read do not spoil what was offered before. */
  lemma ReceiveKeeps(t: seq<Event>, received: string, bytes: string)
    requires OffersInOrder(t, received)
    ensures OffersInOrder(t, received + bytes)
  {
  }

  // ----- The queue -----

  lemma {:induction false} TakeSplits(fifo: seq<string>)
    requires forall i :: 0 <= i < |fifo| && fifo[i] == SENTINEL ==> i == |fifo| - 1
    ensures Flatten(Taken(fifo)) == Flatten(fifo)
    ensures AfterSentinel(fifo) == []
    decreases |fifo|
  {
    if fifo != [] {
      var tail := fifo[1..];
      assert forall i :: 0 <= i < |tail| ==> tail[i] == fifo[i + 1];
      TakeSplits(tail);
    }
  }

  lemma FlattenAppend(fifo: seq<string>, c: string)
    ensures Flatten(fifo + [c]) == Flatten(fifo) + c
  {
    FlattenConcat(fifo, [c]);
    assert Flatten([c]) == c + "" == c;
  }

  // ----- Every step keeps the invariant -----

  lemma ReadKeeps(s: State, bytes: string)
    requires Inv(s) && Enabled(s, Read(bytes))
    ensures Inv(Apply(s, Read(bytes)))
  {
    ReceiveKeeps(s.trace, s.received, bytes);
    FlattenAppend(s.fifo, bytes);
    ConcatAssociates(Eaten(s.trace) + s.buffer, Flatten(s.fifo), bytes);
  }

  lemma CloseIoKeeps(s: State)
    requires Inv(s)
    ensures Inv(Apply(s, CloseIo))
  {
    FlattenAppend(s.fifo, SENTINEL);
    assert Flatten(s.fifo) + "" == Flatten(s.fifo);
  }

  lemma SwitchKeeps(s: State, off: bool)
    requires Inv(s)
    ensures Inv(Switched(s, off))
  {
    if off {
      EatenAppend(s.trace, Released);
      assert Eaten(s.trace) + "" == Eaten(s.trace);
      AppendKeeps(s.trace, Released, s.received);
    }
  }

  lemma TakeKeeps(s: State)
    requires Inv(s) && s.pc.Drain?
    ensures Inv(Apply(s, TakeChunks))
  {
    TakeSplits(s.fifo);
    ConcatAssociates(Eaten(s.trace), s.buffer, Flatten(s.fifo));
    var t := Apply(s, TakeChunks);
    assert Eaten(t.trace) + t.buffer + "" == Eaten(t.trace) + t.buffer;
  }

  lemma OfferKeeps(s: State, n: nat, releases: bool)
    requires Inv(s) && Enabled(s, OfferInput(n, releases))
    ensures Inv(Apply(s, OfferInput(n, releases)))
  {
    OfferAloneKeeps(s, n);
    var t := Offering(s, n);
    SwitchKeeps(t, releases);
    assert Apply(s, OfferInput(n, releases)) == Switched(t, releases);
  }

  /** A process_input callback that does not release. */
  function Offering(s: State, n: nat): State
    requires s.pc.Offer? && n <= |s.buffer|
  {
    s.(buffer := s.buffer[n..],
       trace := s.trace + [Input(s.buffer, n)],
       pc := if n > 0 then s.pc else Finish(s).pc)
  }

  lemma OfferAloneKeeps(s: State, n: nat)
    requires Inv(s) && Enabled(s, OfferInput(n, false))
    ensures Inv(Offering(s, n))
  {
    var e := Input(s.buffer, n);
    var eaten := Eaten(s.trace);
    ConcatPrefix(eaten + s.buffer, Flatten(s.fifo));
    EatenAppend(s.trace, e);
    AppendKeeps(s.trace, e, s.received);
    SplitAssociates(eaten, s.buffer, n);
    if n == 0 { assert s.buffer[n..] == s.buffer; }
  }

  lemma ConcatPrefix(a: string, b: string)
    ensures a <= a + b
  {
  }

  lemma SplitAssociates(a: string, b: string, n: nat)
    requires n <= |b|
    ensures (a + b[..n]) + b[n..] == a + b
  {
    assert b == b[..n] + b[n..];
  }

  lemma ProcessCloseKeeps(s: State, releases: bool)
    requires Inv(s) && s.pc.CallClose?
    ensures Inv(Apply(s, ProcessClose(releases)))
  {
    if s.callbacks {
      var e := Closed(s.buffer);
      assert Eaten(s.trace) + s.buffer + "" == Eaten(s.trace) + s.buffer;
      EatenAppend(s.trace, e);
      assert Eaten(s.trace) + "" == Eaten(s.trace);
      AppendKeeps(s.trace, e, s.received);
      var t := s.(trace := s.trace + [e], callbacks := false, pc := Clear);
      assert t.trace[|s.trace|].Closed?;
      assert Inv(t);
      SwitchKeeps(t, releases);
      assert Apply(s, ProcessClose(releases)) == Switched(t, releases);
    }
  }

  lemma StepKeeps(s: State, a: Action)
    requires Inv(s) && Enabled(s, a)
    ensures Inv(Apply(s, a))
  {
    match a
    case Read(bytes) => ReadKeeps(s, bytes);
    case CloseIo => CloseIoKeeps(s);
    case Release => SwitchKeeps(s, true);
    case Start =>
    case TakeChunks => TakeKeeps(s);
    case OfferInput(n, releases) => OfferKeeps(s, n, releases);
    case Stop =>
    case ProcessClose(releases) => ProcessCloseKeeps(s, releases);
    case ClearQueue =>
  }

  lemma {:induction false} RunKeeps(s: State, run: seq<Action>)
    requires Inv(s) && Possible(s, run)
    ensures Inv(Run(s, run))
    decreases |run|
  {
    if run != [] {
      StepKeeps(s, run[0]);
      RunKeeps(Apply(s, run[0]), run[1..]);
    }
  }

  /** Over every interleaving: the session sees process_input calls, then at most one
      process_close, then nothing, and nothing after a release; each process_input is offered the
      stream from where the last one stopped; at process_close every byte read has been offered. */
  lemma CallbackTrace(run: seq<Action>)
    requires Possible(Init, run)
    ensures var s := Run(Init, run);
            && WellOrdered(s.trace)
            && OffersInOrder(s.trace, s.received)
            && ClosesLast(s.trace, s.received)
            && (s.callbacks ==> Eaten(s.trace) + s.buffer + Flatten(s.fifo) == s.received)
  {
    RunKeeps(Init, run);
  }

  // ----- The close is reported -----

  /** The connection is open, or the close is still on its way, or callbacks are over. */
  predicate CloseComing(s: State) {
    s.ioClosed ==> SENTINEL in s.fifo || (s.pc.Offer? && s.pc.close) || s.pc.CallClose? || !s.callbacks
  }

  predicate Ends(e: Event) {
    e.Closed? || e.Released?
  }

  /** Callbacks are over only because of a process_close or a release. */
  predicate EndHasReason(s: State) {
    !s.callbacks ==> exists i :: 0 <= i < |s.trace| && Ends(s.trace[i])
  }

  lemma EndStays(t: seq<Event>, u: seq<Event>)
    requires t <= u && exists i :: 0 <= i < |t| && Ends(t[i])
    ensures exists i :: 0 <= i < |u| && Ends(u[i])
  {
    var i :| 0 <= i < |t| && Ends(t[i]);
    assert Ends(u[i]);
  }

  lemma TraceGrows(s: State, a: Action)
    requires Enabled(s, a)
    ensures s.trace <= Apply(s, a).trace
    ensures s.callbacks && !Apply(s, a).callbacks ==> Apply(s, a).trace != [] && Ends(Apply(s, a).trace[|Apply(s, a).trace| - 1])
  {
  }

  lemma CloseStaysComing(s: State, a: Action)
    requires Inv(s) && CloseComing(s) && Enabled(s, a)
    ensures CloseComing(Apply(s, a))
  {
    if a.CloseIo? && !s.ioClosed { assert Apply(s, a).fifo[|s.fifo|] == SENTINEL; }
    if a.Read? { assert s.fifo <= Apply(s, a).fifo; }
  }

  lemma StepReports(s: State, a: Action)
    requires Inv(s) && CloseComing(s) && EndHasReason(s) && Enabled(s, a)
    ensures CloseComing(Apply(s, a)) && EndHasReason(Apply(s, a))
  {
    CloseStaysComing(s, a);
    TraceGrows(s, a);
    if !s.callbacks { EndStays(s.trace, Apply(s, a).trace); }
  }

  lemma {:induction false} RunReports(s: State, run: seq<Action>)
    requires Inv(s) && CloseComing(s) && EndHasReason(s) && Possible(s, run)
    ensures CloseComing(Run(s, run)) && EndHasReason(Run(s, run))
    decreases |run|
  {
    if run != [] {
      StepKeeps(s, run[0]);
      StepReports(s, run[0]);
      RunReports(Apply(s, run[0]), run[1..]);
    }
  }

  /** Over every interleaving: once the connection has closed and a worker has taken the sentinel
      and is idle again, the session has been told with a process_close, unless it had released. */
  lemma CloseIsReported(run: seq<Action>)
    requires Possible(Init, run)
    ensures var s := Run(Init, run);
            s.ioClosed && s.pc.Idle? && SENTINEL !in s.fifo ==> exists i :: 0 <= i < |s.trace| && Ends(s.trace[i])
    ensures var s := Run(Init, run);
            s.ioClosed && s.pc.Idle? && SENTINEL !in s.fifo && (forall i :: 0 <= i < |s.trace| ==> !s.trace[i].Released?) ==>
              s.trace != [] && s.trace[|s.trace| - 1].Closed?
  {
    RunReports(Init, run);
    RunKeeps(Init, run);
  }

  // ----- A release silences -----

  /** Everything in `u` behind `t` is a release. */
  predicate OnlyReleases(t: seq<Event>, u: seq<Event>) {
    |t| <= |u| && u[..|t|] == t && forall i :: |t| <= i < |u| ==> u[i].Released?
  }

  lemma OnlyReleasesChain(t: seq<Event>, u: seq<Event>, v: seq<Event>)
    requires OnlyReleases(t, u) && OnlyReleases(u, v)
    ensures OnlyReleases(t, v)
  {
    forall i | 0 <= i < |t| ensures v[i] == t[i] { assert v[..|u|][i] == u[i] && u[..|t|][i] == t[i]; }
    forall i | |t| <= i < |v| ensures v[i].Released? {
      if i < |u| { assert v[..|u|][i] == u[i]; }
    }
  }

  lemma {:induction false} SilentWhenOff(s: State, run: seq<Action>)
    requires !s.callbacks && Possible(s, run)
    ensures !Run(s, run).callbacks && OnlyReleases(s.trace, Run(s, run).trace)
    decreases |run|
  {
    if run != [] {
      var t := Apply(s, run[0]);
      assert !t.callbacks && OnlyReleases(s.trace, t.trace);
      SilentWhenOff(t, run[1..]);
      OnlyReleasesChain(s.trace, t.trace, Run(s, run).trace);
    }
  }

  /** From any state, whatever happens after a release, no callback is made any more. */
  lemma ReleaseSilences(s: State, run: seq<Action>)
    requires Possible(Apply(s, Release), run)
    ensures OnlyReleases(s.trace, Run(Apply(s, Release), run).trace)
  {
    SilentWhenOff(Apply(s, Release), run);
    OnlyReleasesChain(s.trace, Apply(s, Release).trace, Run(Apply(s, Release), run).trace);
  }
}
