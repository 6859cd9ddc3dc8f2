/** The reactor, its worker pool and its clients as one transition system. Every critical section
    and every shared read of the source is one step, so a run is any interleaving of the reactor
    thread, the workers and the threads of the application (libexio/Reactor.cc, libexio/Client.cc).
    What the kernel decides (readiness, bytes read and taken, time) is an arbitrary choice. */
module Reactor {

  type ClientId = nat

  datatype RunState = N | Q | R

  datatype Client = Client(
    open: bool,          // io_open
    outq: nat,           // items in the outbound queue
    fifo: nat,           // items in the inbound queue
    run: RunState,
    wantDelete: bool)

  const Fresh := Client(true, 0, 0, N, false)

  datatype Msg = NoEvent | Add(client: ClientId) | Attn | Terminate

  datatype Worker =
    | Waiting
    | Popped(client: ClientId)                  // taken off the run queue
    | Working(client: ClientId)                 // run state R, inside or before do_work
    | Deciding(client: ClientId, saw: bool)     // holds the run state lock, has asked has_work

  datatype Pc =
    | Build(next: nat, mask: map<ClientId, bool>)        // collecting events(); mask holds POLLOUT
    | Poll(mask: map<ClientId, bool>, timeout: bool)
    | Dispatch(ready: set<ClientId>, pipeReady: bool)
    | Handle(msgs: seq<Msg>)
    | Attend(next: nat, msgs: seq<Msg>)
    | Scan(next: nat)                                    // looking for clients with work
    | PushRun(next: nat)                                 // this client goes on the run queue
    | Reap(todo: set<ClientId>, doomed: set<ClientId>)   // the destruction cycle
    | Stopped

  datatype State = State(
    all: map<ClientId, Client>,     // every client that has not been deleted
    clients: seq<ClientId>,         // m_clients
    destroying: set<ClientId>,
    pending: seq<Msg>,              // the notification queue
    pipe: nat,                      // bytes in the pipe
    runq: seq<ClientId>,
    workers: seq<Worker>,
    invalidations: nat,             // threads between queueing data and calling invalidate
    stopping: bool,
    pc: Pc)

  /** Bytes a pipe holds; a write to a full pipe is lost. */
  const PIPE_CAPACITY := 65536

  function Init(nworkers: nat): State {
    State(map[], [], {}, [], 0, [], seq(nworkers, _ => Waiting), 0, false, Build(0, map[]))
  }

  // ----- The notification queue -----

  /** push_msg: an eNoEvent is dropped when something is already waiting. */
  function Push(s: State, m: Msg): State {
    if m.NoEvent? && s.pending != [] then s
    else s.(pending := s.pending + [m], pipe := if s.pipe < PIPE_CAPACITY then s.pipe + 1 else s.pipe)
  }

  /** The notification queue as the code has it; a message waits exactly when the pipe is readable. */
  class NotifQ {
    var pending: seq<Msg>
    var pipe: nat

    ghost predicate Valid()
      reads this
    {
      pending != [] <==> pipe > 0
    }

    constructor ()
      ensures Valid() && pending == []
    {
      pending, pipe := [], 0;
    }

    /** push_msg: what it does to a reactor that holds this queue is the step `Push`. */
    method PushMsg(m: Msg)
      requires Valid()
      modifies this
      ensures Valid() && pending != []
      ensures forall s: State :: s.pending == old(pending) && s.pipe == old(pipe) ==>
                Push(s, m) == s.(pending := pending, pipe := pipe)
    {
      if m.NoEvent? && pending != [] { return; }
      pending := pending + [m];
      if pipe < PIPE_CAPACITY { pipe := pipe + 1; }
    }

    /** pull: every waiting message is taken and the pipe is drained, a kilobyte at a time. */
    method PullAll() returns (msgs: seq<Msg>)
      requires Valid()
      modifies this
      ensures Valid() && msgs == old(pending) && pending == [] && pipe == 0
    {
      msgs, pending := pending, [];
      while pipe > 0
        invariant pending == [] && msgs == old(pending)
      {
        pipe := if pipe > 1024 then pipe - 1024 else 0;
      }
    }
  }

  // ----- Steps -----

  datatype Action =
    // threads of the application
    | NewClient(c: ClientId)             // add_client
    | QueueOut(c: ClientId)              // queue, up to the end of its critical section
    | Invalidate                         // the call to invalidate that follows
    | Release(c: ClientId)
    | Shutdown                           // the destructor asks the reactor to stop
    // workers
    | Pop(w: nat)
    | SetRun(w: nat)
    | Drain(w: nat)                      // do_work takes what is queued
    | Ask(w: nat)                        // update_run_state_for_worker: lock and has_work
    | Decide(w: nat)                     // ... and write the state
    // the reactor
    | BuildOne | EnterPoll
    | PollReturns(pipeReady: bool)
    | Input(c: ClientId)                 // handle_input got bytes
    | Output(c: ClientId, left: nat)     // handle_output, `left` items stay
    | Close(c: ClientId)                 // handle_close
    | Pull | SkipPull
    | HandleMsg | AttendOne | HandleDone
    | ScanOne | PushOne
    | StartReap(due: bool)
    | TooEarly(c: ClientId) | CloseOld(c: ClientId) | Doom(c: ClientId)
    | DeleteDoomed

  /** The run state mutex of `c` is free. */
  predicate Unlocked(s: State, c: ClientId) {
    forall w :: 0 <= w < |s.workers| ==> !(s.workers[w].Deciding? && s.workers[w].client == c)
  }

  predicate WorkerReady(s: State, a: Action) {
    match a
    case Pop(w) => w < |s.workers| && s.workers[w].Waiting? && s.runq != []
    case SetRun(w) => w < |s.workers| && s.workers[w].Popped? && s.workers[w].client in s.all && Unlocked(s, s.workers[w].client)
    case Drain(w) => w < |s.workers| && s.workers[w].Working? && s.workers[w].client in s.all
    case Ask(w) => w < |s.workers| && s.workers[w].Working? && s.workers[w].client in s.all && Unlocked(s, s.workers[w].client)
    case Decide(w) => w < |s.workers| && s.workers[w].Deciding? && s.workers[w].client in s.all
    case _ => false
  }

  predicate AppReady(s: State, a: Action) {
    match a
    case NewClient(c) => c !in s.all && c !in s.clients
    case QueueOut(c) => c in s.all
    case Invalidate => s.invalidations > 0
    case Release(c) => c in s.all
    case Shutdown => true
    case _ => false
  }

  predicate ReactorReady(s: State, a: Action) {
    match a
    case BuildOne => s.pc.Build? && s.pc.next < |s.clients| && s.clients[s.pc.next] in s.all
    case EnterPoll => s.pc.Build? && s.pc.next == |s.clients|
    case PollReturns(pipeReady) => s.pc.Poll? && (pipeReady ==> s.pipe > 0)
    case Input(c) => s.pc.Dispatch? && c in s.pc.ready && c in s.all && s.all[c].open
    case Output(c, left) => s.pc.Dispatch? && c in s.pc.ready && c in s.all && s.all[c].open && left <= s.all[c].outq
    case Close(c) => s.pc.Dispatch? && c in s.pc.ready && c in s.all
    case Pull => s.pc.Dispatch? && s.pc.pipeReady
    case SkipPull => s.pc.Dispatch? && !s.pc.pipeReady
    case HandleMsg => s.pc.Handle? && s.pc.msgs != []
    case AttendOne => s.pc.Attend? && (s.pc.next < |s.clients| ==> s.clients[s.pc.next] in s.all)
    case HandleDone => s.pc.Handle? && s.pc.msgs == []
    case ScanOne => s.pc.Scan? && s.pc.next < |s.clients| && s.clients[s.pc.next] in s.all && Unlocked(s, s.clients[s.pc.next])
    case PushOne => s.pc.PushRun? && s.pc.next < |s.clients|
    case StartReap(_) => s.pc.Scan? && s.pc.next == |s.clients|
    case TooEarly(c) => s.pc.Reap? && c in s.pc.todo
    case CloseOld(c) => s.pc.Reap? && c in s.pc.todo && c in s.all && s.all[c].open
    case Doom(c) => s.pc.Reap? && c in s.pc.todo && c in s.all && !s.all[c].open && Unlocked(s, c)
    case DeleteDoomed => s.pc.Reap? && s.pc.todo == {}
    case _ => false
  }

  predicate Enabled(s: State, a: Action) {
    AppReady(s, a) || WorkerReady(s, a) || ReactorReady(s, a)
  }

  function Put(s: State, c: ClientId, k: Client): State {
    s.(all := s.all[c := k])
  }

  function ApplyApp(s: State, a: Action): State
    requires AppReady(s, a)
  {
    match a
    case NewClient(c) => Push(Put(s, c, Fresh), Add(c))
    case QueueOut(c) => Put(s, c, s.all[c].(outq := s.all[c].outq + 1)).(invalidations := s.invalidations + 1)
    case Invalidate => Push(s.(invalidations := s.invalidations - 1), NoEvent)
    case Release(c) => Push(Put(s, c, s.all[c].(wantDelete := true)), Attn)
    case Shutdown => Push(s.(stopping := true), Terminate)
  }

  function ApplyWorker(s: State, a: Action): State
    requires WorkerReady(s, a)
  {
    match a
    case Pop(w) => s.(workers := s.workers[w := Popped(s.runq[0])], runq := s.runq[1..])
    case SetRun(w) =>
      var c := s.workers[w].client;
      Put(s, c, s.all[c].(run := R)).(workers := s.workers[w := Working(c)])
    case Drain(w) =>
      var c := s.workers[w].client;
      Put(s, c, s.all[c].(fifo := 0))
    case Ask(w) =>
      var c := s.workers[w].client;
      s.(workers := s.workers[w := Deciding(c, s.all[c].fifo > 0)])
    case Decide(w) =>
      var c := s.workers[w].client;
      if s.workers[w].saw then s.(workers := s.workers[w := Working(c)])
      else Put(s, c, s.all[c].(run := N)).(workers := s.workers[w := Waiting])
  }

  function ApplyMsg(s: State): State
    requires s.pc.Handle? && s.pc.msgs != []
  {
    var rest := s.pc.msgs[1..];
    match s.pc.msgs[0]
    case NoEvent => s.(pc := Handle(rest))
    case Add(c) => s.(clients := s.clients + [c], pc := Handle(rest))
    case Attn => s.(pc := Attend(0, rest))
    case Terminate => s.(stopping := true, pc := Handle(rest))
  }

  /** handle_close: closes once and queues the sentinel. */
  function Closed(k: Client): Client {
    if k.open then k.(open := false, fifo := k.fifo + 1) else k
  }

  function Without(cs: seq<ClientId>, doomed: set<ClientId>): (r: seq<ClientId>)
    ensures forall c :: c in r <==> c in cs && c !in doomed
    ensures (forall i, j :: 0 <= i < j < |cs| ==> cs[i] != cs[j]) ==> forall i, j :: 0 <= i < j < |r| ==> r[i] != r[j]
  {
    if cs == [] then []
    else if cs[0] in doomed then Without(cs[1..], doomed)
    else [cs[0]] + Without(cs[1..], doomed)
  }

  function NextRound(s: State): State {
    s.(pc := if s.stopping then Stopped else Build(0, map[]))
  }

  function ApplyReactor(s: State, a: Action): State
    requires ReactorReady(s, a)
  {
    match a
    case BuildOne =>
      var c := s.clients[s.pc.next];
      s.(pc := Build(s.pc.next + 1, if s.all[c].open then s.pc.mask[c := s.all[c].outq > 0] else s.pc.mask))
    case EnterPoll => s.(pc := Poll(s.pc.mask, s.destroying != {}))
    case PollReturns(pipeReady) => s.(pc := Dispatch(s.pc.mask.Keys, pipeReady))
    case Input(c) => Put(s, c, s.all[c].(fifo := s.all[c].fifo + 1))
    case Output(c, left) => Put(s, c, s.all[c].(outq := left))
    case Close(c) => Put(s, c, Closed(s.all[c]))
    case Pull => s.(pc := Handle(s.pending), pending := [], pipe := 0)
    case SkipPull => s.(pc := Scan(0))
    case HandleMsg => ApplyMsg(s)
    case AttendOne =>
      if s.pc.next >= |s.clients| then s.(pc := Handle(s.pc.msgs))
      else
        var c := s.clients[s.pc.next];
        s.(pc := Attend(s.pc.next + 1, s.pc.msgs),
           destroying := if s.all[c].wantDelete then s.destroying + {c} else s.destroying)
    case HandleDone => s.(pc := Scan(0))
    case ScanOne =>
      var c := s.clients[s.pc.next];
      if s.all[c].fifo > 0 && s.all[c].run.N? then Put(s, c, s.all[c].(run := Q)).(pc := PushRun(s.pc.next))
      else s.(pc := Scan(s.pc.next + 1))
    case PushOne => s.(runq := s.runq + [s.clients[s.pc.next]], pc := Scan(s.pc.next + 1))
    case StartReap(due) => s.(pc := Reap(if due then s.destroying else {}, {}))
    case TooEarly(c) => s.(pc := Reap(s.pc.todo - {c}, s.pc.doomed))
    case CloseOld(c) => Put(s, c, Closed(s.all[c])).(pc := Reap(s.pc.todo - {c}, s.pc.doomed))
    case Doom(c) =>
      s.(pc := Reap(s.pc.todo - {c}, if s.all[c].run.N? then s.pc.doomed + {c} else s.pc.doomed))
    case DeleteDoomed =>
      NextRound(s.(all := s.all - s.pc.doomed,
                   clients := Without(s.clients, s.pc.doomed),
                   destroying := s.destroying - s.pc.doomed))
  }

  function Apply(s: State, a: Action): State
    requires Enabled(s, a)
  {
    if AppReady(s, a) then ApplyApp(s, a)
    else if WorkerReady(s, a) then ApplyWorker(s, a)
    else ApplyReactor(s, a)
  }

  predicate Possible(s: State, run: seq<Action>)
    decreases |run|
  {
    run == [] || (Enabled(s, run[0]) && Possible(Apply(s, run[0]), run[1..]))
  }

  function Run(s: State, run: seq<Action>): State
    requires Possible(s, run)
    decreases |run|
  {
    if run == [] then s else Run(Apply(s, run[0]), run[1..])
  }
}
