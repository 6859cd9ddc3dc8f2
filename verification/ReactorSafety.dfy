/** Safety of the reactor over every interleaving: no lost wake-up, no stranded input, no client
    run twice or deleted while in use. */
module ReactorSafety {
  import opened Reactor

  // ----- Registration: who is known where -----

  /** The messages already pulled but not yet handled, and those still waiting. */
  function Undelivered(s: State): seq<Msg> {
    (if s.pc.Handle? || s.pc.Attend? then s.pc.msgs else []) + s.pending
  }

  predicate AddsAreNew(s: State, msgs: seq<Msg>) {
    && (forall i :: 0 <= i < |msgs| && msgs[i].Add? ==> msgs[i].client in s.all && msgs[i].client !in s.clients)
    && (forall i, j :: 0 <= i < j < |msgs| && msgs[i].Add? && msgs[j].Add? ==> msgs[i].client != msgs[j].client)
  }

  predicate Distinct(cs: seq<ClientId>) {
    forall i, j :: 0 <= i < j < |cs| ==> cs[i] != cs[j]
  }

  predicate PcInRange(s: State) {
    match s.pc
    case Build(next, mask) => next <= |s.clients| && (forall c :: c in mask ==> c in s.clients)
    case Poll(mask, timeout) => (forall c :: c in mask ==> c in s.clients) && (timeout <==> s.destroying != {})
    case Dispatch(ready, _) => forall c :: c in ready ==> c in s.clients
    case Scan(next) => next <= |s.clients|
    case PushRun(next) => next < |s.clients|
    case Reap(todo, doomed) =>
      && todo <= s.destroying && doomed <= s.destroying
      && (forall c :: c in doomed ==> c in s.all && s.all[c].run.N? && !s.all[c].open)
    case _ => true
  }

  predicate Registered(s: State) {
    && Distinct(s.clients)
    && (forall c :: c in s.clients ==> c in s.all)
    && (forall c :: c in s.destroying ==> c in s.clients && c in s.all && s.all[c].wantDelete)
    && (forall c :: c in s.all && c !in s.clients ==> s.all[c].run.N? && s.all[c].fifo == 0)
    && AddsAreNew(s, Undelivered(s))
    && PcInRange(s)
  }

  // ----- The run state is a token -----

  /** A client is on the run queue at most once and held by at most one worker, never both; and
      its run state says which. */
  predicate OneHolder(s: State) {
    && Distinct(s.runq)
    && (forall i :: 0 <= i < |s.runq| ==> s.runq[i] in s.all && s.all[s.runq[i]].run.Q?)
    && (forall w :: 0 <= w < |s.workers| ==> HolderMatches(s, s.workers[w]))
    && (forall v, w :: 0 <= v < w < |s.workers| && !s.workers[v].Waiting? && !s.workers[w].Waiting? ==>
          s.workers[v].client != s.workers[w].client)
    && (forall w :: 0 <= w < |s.workers| && !s.workers[w].Waiting? ==> s.workers[w].client !in s.runq)
    && (s.pc.PushRun? ==> PushPending(s))
  }

  predicate HolderMatches(s: State, k: Worker) {
    !k.Waiting? ==> k.client in s.all && s.all[k.client].run == (if k.Popped? then Q else R)
  }

  predicate PushPending(s: State)
    requires s.pc.PushRun?
  {
    && s.pc.next < |s.clients|
    && var c := s.clients[s.pc.next];
    && c in s.all && s.all[c].run.Q? && c !in s.runq
    && forall w :: 0 <= w < |s.workers| && !s.workers[w].Waiting? ==> s.workers[w].client != c
  }

  // ----- Pending messages are announced in the pipe -----

  predicate Announced(s: State) {
    s.pending != [] <==> s.pipe > 0
  }

  // ----- Input is never stranded -----

  /** Some worker will look at the client's input again. */
  predicate Covered(s: State, c: ClientId) {
    && c in s.all && !s.all[c].run.N?
    && forall w :: 0 <= w < |s.workers| ==> s.workers[w] != Deciding(c, false)
  }

  predicate WorkSeen(s: State, c: ClientId) {
    c in s.all && s.all[c].fifo > 0 ==> Covered(s, c) || (c in s.destroying && !s.pc.Scan? && !s.pc.PushRun?)
  }

  predicate NoStrandedInput(s: State) {
    match s.pc
    case Scan(next) => next <= |s.clients| && forall i :: 0 <= i < next ==> WorkSeen(s, s.clients[i])
    case PushRun(next) => next < |s.clients| && forall i :: 0 <= i <= next ==> WorkSeen(s, s.clients[i])
    case Build(_, _) => forall c :: c in s.clients ==> WorkSeen(s, c)
    case Poll(_, _) => forall c :: c in s.clients ==> WorkSeen(s, c)
    case Reap(_, _) => forall c :: c in s.clients ==> WorkSeen(s, c)
    case _ => true
  }

  // ----- Output is never forgotten -----

  /** The poll will be woken for the client's output. */
  predicate OutputSeen(s: State, c: ClientId, mask: map<ClientId, bool>) {
    c in s.all && s.all[c].open ==>
      c in mask && (s.all[c].outq > 0 ==> mask[c] || s.pipe > 0 || s.invalidations > 0)
  }

  predicate NoLostWakeup(s: State) {
    match s.pc
    case Build(next, mask) => next <= |s.clients| && forall i :: 0 <= i < next ==> OutputSeen(s, s.clients[i], mask)
    case Poll(mask, _) => forall c :: c in s.clients ==> OutputSeen(s, c, mask)
    case _ => true
  }

  predicate Inv(s: State) {
    Registered(s) && OneHolder(s) && Announced(s) && NoStrandedInput(s) && NoLostWakeup(s)
  }

  lemma InitInv(nworkers: nat)
    ensures Inv(Init(nworkers)) && AllHeld(Init(nworkers)) && AllKnown(Init(nworkers))
  {
  }

  // ----- Steps of the application -----

  /** What no application step touches. */
  predicate AppFrame(s: State, t: State) {
    && t.clients == s.clients && t.runq == s.runq && t.workers == s.workers && t.pc == s.pc
    && t.destroying == s.destroying
    && (forall c :: c in s.all ==>
          c in t.all && t.all[c].run == s.all[c].run && t.all[c].fifo == s.all[c].fifo && t.all[c].open == s.all[c].open
          && (s.all[c].wantDelete ==> t.all[c].wantDelete))
    && (forall c :: c in t.all && c !in s.all ==> t.all[c] == Fresh && c !in s.clients)
  }

  lemma AppFrameKeeps(s: State, t: State)
    requires Inv(s) && AppFrame(s, t)
    ensures OneHolder(t) && NoStrandedInput(t) && PcInRange(t)
    ensures AddsAreNew(t, Undelivered(t)) ==> Registered(t)
  {
    WorkFrame(s, t);
  }

  lemma WorkFrame(s: State, t: State)
    requires NoStrandedInput(s) && Registered(s) && AppFrame(s, t)
    ensures NoStrandedInput(t)
  {
    forall c | c in s.clients && WorkSeen(s, c) ensures WorkSeen(t, c) {
      assert c in s.all;
    }
  }

  /** Queued messages grow by at most one, and an added client is new. */
  lemma PushAdds(s: State, t: State, m: Msg)
    requires Inv(s) && AppFrame(s, t) && (t.pending == s.pending || t.pending == s.pending + [m])
    requires m.Add? ==> m.client in t.all && m.client !in s.all && m.client !in s.clients
    ensures AddsAreNew(t, Undelivered(t))
  {
    var u, v := Undelivered(s), Undelivered(t);
    assert t.pending == s.pending ==> v == u;
    assert t.pending == s.pending + [m] ==> v == u + [m];
  }

  /** The poll is not forgotten: no output appears without an invalidation on its way, and an
      invalidation ends with a byte in the pipe. */
  lemma WakeupFrame(s: State, t: State)
    requires Inv(s) && AppFrame(s, t)
    requires t.pipe > 0 || (t.pipe == s.pipe && t.invalidations >= s.invalidations)
    requires forall c :: c in s.all ==> t.all[c].outq == s.all[c].outq || t.pipe > 0 || t.invalidations > 0
    ensures NoLostWakeup(t)
  {
    if s.pc.Build? || s.pc.Poll? {
      var mask := s.pc.mask;
      forall c | c in s.clients && OutputSeen(s, c, mask) ensures OutputSeen(t, c, mask) {
        assert c in s.all;
      }
    }
  }

  lemma AppKeeps(s: State, a: Action)
    requires Inv(s) && AppReady(s, a)
    ensures Inv(ApplyApp(s, a))
  {
    var t := ApplyApp(s, a);
    var m := match a case NewClient(c) => Add(c) case Release(_) => Attn case Shutdown => Terminate case _ => NoEvent;
    AppFrameKeeps(s, t);
    PushAdds(s, t, m);
    WakeupFrame(s, t);
  }

  // ----- Steps of a worker -----

  /** A worker changes the run state and the input queue of one client it holds, and itself. */
  predicate WorkerFrame(s: State, t: State, c: ClientId) {
    && t.clients == s.clients && t.pc == s.pc && t.destroying == s.destroying && t.pending == s.pending
    && t.pipe == s.pipe && t.invalidations == s.invalidations
    && t.all.Keys == s.all.Keys && c in s.all
    && (forall d :: d in s.all && d != c ==> t.all[d] == s.all[d])
    && t.all[c] == s.all[c].(run := t.all[c].run, fifo := t.all[c].fifo)
    && !s.all[c].run.N?
  }

  lemma WorkerFrameKeeps(s: State, t: State, c: ClientId)
    requires Inv(s) && WorkerFrame(s, t, c)
    ensures Registered(t) && Announced(t) && NoLostWakeup(t)
  {
    assert c in s.clients;
    assert Undelivered(t) == Undelivered(s);
    if s.pc.Build? || s.pc.Poll? {
      var mask := s.pc.mask;
      forall d | d in s.clients && OutputSeen(s, d, mask) ensures OutputSeen(t, d, mask) { }
    }
  }

  lemma WorkCarries(s: State, t: State, c: ClientId)
    requires Inv(s) && WorkerFrame(s, t, c)
    requires forall d :: d in s.clients && WorkSeen(s, d) ==> WorkSeen(t, d)
    ensures NoStrandedInput(t)
  {
  }

  lemma PopKeeps(s: State, w: nat)
    requires Inv(s) && WorkerReady(s, Pop(w))
    ensures Inv(ApplyWorker(s, Pop(w)))
  {
    var t := ApplyWorker(s, Pop(w));
    var c := s.runq[0];
    assert c in s.runq;
    assert WorkerFrame(s, t, c);
    WorkerFrameKeeps(s, t, c);
    forall d | d in s.clients && WorkSeen(s, d) ensures WorkSeen(t, d) { }
    WorkCarries(s, t, c);
    assert forall i :: 0 <= i < |t.runq| ==> t.runq[i] == s.runq[i + 1];
    assert c !in t.runq;
    assert OneHolder(t);
  }

  lemma SetRunKeeps(s: State, w: nat)
    requires Inv(s) && WorkerReady(s, SetRun(w))
    ensures Inv(ApplyWorker(s, SetRun(w)))
  {
    var t := ApplyWorker(s, SetRun(w));
    var c := s.workers[w].client;
    assert HolderMatches(s, s.workers[w]);
    assert WorkerFrame(s, t, c);
    WorkerFrameKeeps(s, t, c);
    forall d | d in s.clients && WorkSeen(s, d) ensures WorkSeen(t, d) { }
    WorkCarries(s, t, c);
    HolderChanges(s, t, w, c);
  }

  /** The holder of `c` moves on; everybody else keeps their client. */
  lemma HolderChanges(s: State, t: State, w: nat, c: ClientId)
    requires Inv(s) && WorkerFrame(s, t, c)
    requires w < |s.workers| && !s.workers[w].Waiting? && s.workers[w].client == c
    requires t.runq == s.runq && |t.workers| == |s.workers| && t.workers == s.workers[w := t.workers[w]]
    requires t.workers[w].Waiting? || (t.workers[w].client == c && HolderMatches(t, t.workers[w]))
    ensures OneHolder(t)
  {
    forall v | 0 <= v < |t.workers| ensures HolderMatches(t, t.workers[v]) {
      if v != w { assert HolderMatches(s, s.workers[v]); }
    }
  }

  lemma DrainKeeps(s: State, w: nat)
    requires Inv(s) && WorkerReady(s, Drain(w))
    ensures Inv(ApplyWorker(s, Drain(w)))
  {
    var t := ApplyWorker(s, Drain(w));
    var c := s.workers[w].client;
    assert HolderMatches(s, s.workers[w]);
    assert WorkerFrame(s, t, c);
    WorkerFrameKeeps(s, t, c);
    forall d | d in s.clients && WorkSeen(s, d) ensures WorkSeen(t, d) { }
    WorkCarries(s, t, c);
    HolderChanges(s, t, w, c);
  }

  lemma AskKeeps(s: State, w: nat)
    requires Inv(s) && WorkerReady(s, Ask(w))
    ensures Inv(ApplyWorker(s, Ask(w)))
  {
    var t := ApplyWorker(s, Ask(w));
    var c := s.workers[w].client;
    assert HolderMatches(s, s.workers[w]);
    assert WorkerFrame(s, t, c);
    WorkerFrameKeeps(s, t, c);
    forall d | d in s.clients && WorkSeen(s, d) ensures WorkSeen(t, d) { }
    WorkCarries(s, t, c);
    HolderChanges(s, t, w, c);
  }

  lemma DecideKeeps(s: State, w: nat)
    requires Inv(s) && WorkerReady(s, Decide(w))
    ensures Inv(ApplyWorker(s, Decide(w)))
  {
    var t := ApplyWorker(s, Decide(w));
    var c := s.workers[w].client;
    assert HolderMatches(s, s.workers[w]);
    assert WorkerFrame(s, t, c);
    WorkerFrameKeeps(s, t, c);
    forall d | d in s.clients && WorkSeen(s, d) ensures WorkSeen(t, d) {
      if d == c && !s.workers[w].saw { assert s.workers[w] == Deciding(c, false); }
    }
    WorkCarries(s, t, c);
    HolderChanges(s, t, w, c);
  }

  lemma WorkerKeeps(s: State, a: Action)
    requires Inv(s) && WorkerReady(s, a)
    ensures Inv(ApplyWorker(s, a))
  {
    match a
    case Pop(w) => PopKeeps(s, w);
    case SetRun(w) => SetRunKeeps(s, w);
    case Drain(w) => DrainKeeps(s, w);
    case Ask(w) => AskKeeps(s, w);
    case Decide(w) => DecideKeeps(s, w);
  }

  // ----- Steps of the reactor: building the poll set -----

  lemma BuildOneKeeps(s: State)
    requires Inv(s) && ReactorReady(s, BuildOne)
    ensures Inv(ApplyReactor(s, BuildOne))
  {
    var t := ApplyReactor(s, BuildOne);
    var c := s.clients[s.pc.next];
    assert Undelivered(t) == Undelivered(s);
    forall d | d in s.clients && WorkSeen(s, d) ensures WorkSeen(t, d) { }
    forall i | 0 <= i < t.pc.next ensures OutputSeen(t, t.clients[i], t.pc.mask) {
      if i < s.pc.next {
        assert s.clients[i] != c;
        assert OutputSeen(s, s.clients[i], s.pc.mask);
      }
    }
  }

  lemma EnterPollKeeps(s: State)
    requires Inv(s) && ReactorReady(s, EnterPoll)
    ensures Inv(ApplyReactor(s, EnterPoll))
  {
    var t := ApplyReactor(s, EnterPoll);
    assert Undelivered(t) == Undelivered(s);
    forall d | d in s.clients && WorkSeen(s, d) ensures WorkSeen(t, d) { }
    forall c | c in t.clients ensures OutputSeen(t, c, t.pc.mask) {
      var i :| 0 <= i < |s.clients| && s.clients[i] == c;
      assert OutputSeen(s, s.clients[i], s.pc.mask);
    }
  }

  // ----- Steps of the reactor: input, output and messages -----

  /** Only the position of the reactor changes, to one that claims nothing about input and output. */
  lemma MoveKeeps(s: State, t: State)
    requires Inv(s) && t == s.(pc := t.pc)
    requires t.pc.Dispatch? || t.pc.Handle? || t.pc.Attend? || t.pc == Scan(0)
    requires PcInRange(t) && Undelivered(t) == Undelivered(s)
    ensures Inv(t)
  {
  }

  lemma MovesKeep(s: State, a: Action)
    requires Inv(s) && ReactorReady(s, a) && (a.PollReturns? || a.SkipPull? || a.HandleDone?)
    ensures Inv(ApplyReactor(s, a))
  {
    var t := ApplyReactor(s, a);
    assert Undelivered(t) == Undelivered(s);
    MoveKeeps(s, t);
  }

  lemma PullKeeps(s: State)
    requires Inv(s) && ReactorReady(s, Pull)
    ensures Inv(ApplyReactor(s, Pull))
  {
    var t := ApplyReactor(s, Pull);
    assert Undelivered(t) == Undelivered(s);
  }

  /** handle_input, handle_output and handle_close change one registered client, not its run state. */
  lemma DispatchKeeps(s: State, c: ClientId, k: Client)
    requires Inv(s) && s.pc.Dispatch? && c in s.pc.ready && c in s.all
    requires k.run == s.all[c].run && k.wantDelete == s.all[c].wantDelete
    ensures Inv(Put(s, c, k))
  {
    var t := Put(s, c, k);
    assert Undelivered(t) == Undelivered(s);
    assert c in s.clients;
    assert forall d :: d in s.all ==> t.all[d].run == s.all[d].run && t.all[d].wantDelete == s.all[d].wantDelete;
    forall v | 0 <= v < |t.workers| ensures HolderMatches(t, t.workers[v]) {
      assert HolderMatches(s, s.workers[v]);
    }
  }

  lemma ClientIoKeeps(s: State, a: Action)
    requires Inv(s) && ReactorReady(s, a) && (a.Input? || a.Output? || a.Close?)
    ensures Inv(ApplyReactor(s, a))
  {
    var k := s.all[a.c];
    if a.Input? {
      DispatchKeeps(s, a.c, k.(fifo := k.fifo + 1));
    } else if a.Output? {
      DispatchKeeps(s, a.c, k.(outq := a.left));
    } else {
      DispatchKeeps(s, a.c, Closed(k));
    }
  }

  lemma HandleMsgKeeps(s: State)
    requires Inv(s) && ReactorReady(s, HandleMsg)
    ensures Inv(ApplyReactor(s, HandleMsg))
  {
    var u := Undelivered(s);
    assert u[0] == s.pc.msgs[0];
    assert Undelivered(ApplyMsg(s)) == u[1..];
    forall i | 0 <= i < |u[1..]| ensures u[1..][i] == u[i + 1] { }
    if s.pc.msgs[0].Add? {
      AddKeeps(s, s.pc.msgs[0].client);
    }
  }

  /** A new client is registered. */
  lemma AddKeeps(s: State, c: ClientId)
    requires Inv(s) && s.pc.Handle? && s.pc.msgs != [] && s.pc.msgs[0] == Add(c)
    ensures Inv(s.(clients := s.clients + [c], pc := Handle(s.pc.msgs[1..])))
  {
    var t := s.(clients := s.clients + [c], pc := Handle(s.pc.msgs[1..]));
    var u := Undelivered(s);
    assert u[0] == Add(c);
    assert Undelivered(t) == u[1..];
    forall i | 0 <= i < |u[1..]| ensures u[1..][i] == u[i + 1] { }
    assert AddsAreNew(t, u[1..]);
  }

  lemma AttendKeeps(s: State)
    requires Inv(s) && ReactorReady(s, AttendOne)
    ensures Inv(ApplyReactor(s, AttendOne))
  {
    var t := ApplyReactor(s, AttendOne);
    assert Undelivered(t) == Undelivered(s);
    if s.pc.next < |s.clients| {
      assert s.clients[s.pc.next] in s.clients;
    }
  }

  // ----- Steps of the reactor: handing out work -----

  lemma ScanKeeps(s: State)
    requires Inv(s) && ReactorReady(s, ScanOne)
    ensures Inv(ApplyReactor(s, ScanOne))
  {
    var c := s.clients[s.pc.next];
    if s.all[c].fifo > 0 && s.all[c].run.N? { ScanQueues(s, c); } else { ScanPasses(s, c); }
  }

  /** The client has no new work, or is queued or held already. */
  lemma ScanPasses(s: State, c: ClientId)
    requires Inv(s) && ReactorReady(s, ScanOne) && c == s.clients[s.pc.next]
    requires s.all[c].fifo == 0 || !s.all[c].run.N?
    ensures Inv(s.(pc := Scan(s.pc.next + 1)))
  {
    var t := s.(pc := Scan(s.pc.next + 1));
    assert Undelivered(t) == Undelivered(s);
    forall i | 0 <= i < t.pc.next ensures WorkSeen(t, t.clients[i]) {
      if i < s.pc.next { assert WorkSeen(s, s.clients[i]); }
    }
  }

  /** The client goes from N to Q. */
  lemma ScanQueues(s: State, c: ClientId)
    requires Inv(s) && ReactorReady(s, ScanOne) && c == s.clients[s.pc.next]
    requires s.all[c].run.N?
    ensures Inv(Put(s, c, s.all[c].(run := Q)).(pc := PushRun(s.pc.next)))
  {
    var t := Put(s, c, s.all[c].(run := Q)).(pc := PushRun(s.pc.next));
    assert Undelivered(t) == Undelivered(s);
    assert c in s.clients;
    forall v | 0 <= v < |t.workers| ensures HolderMatches(t, t.workers[v]) {
      assert HolderMatches(s, s.workers[v]);
    }
    forall i | 0 <= i <= t.pc.next ensures WorkSeen(t, t.clients[i]) {
      if i < s.pc.next { assert WorkSeen(s, s.clients[i]) && s.clients[i] != c; }
    }
  }

  lemma PushOneKeeps(s: State)
    requires Inv(s) && ReactorReady(s, PushOne)
    ensures Inv(ApplyReactor(s, PushOne))
  {
    var t := ApplyReactor(s, PushOne);
    assert Undelivered(t) == Undelivered(s);
    forall i | 0 <= i < t.pc.next ensures WorkSeen(t, t.clients[i]) {
      assert WorkSeen(s, s.clients[i]);
    }
  }

  lemma StartReapKeeps(s: State, due: bool)
    requires Inv(s) && ReactorReady(s, StartReap(due))
    ensures Inv(ApplyReactor(s, StartReap(due)))
  {
    var t := ApplyReactor(s, StartReap(due));
    assert Undelivered(t) == Undelivered(s);
    forall c | c in t.clients ensures WorkSeen(t, c) {
      var i :| 0 <= i < |s.clients| && s.clients[i] == c;
      assert WorkSeen(s, s.clients[i]);
    }
  }

  // ----- Steps of the reactor: destruction -----

  lemma ReapStepKeeps(s: State, a: Action)
    requires Inv(s) && ReactorReady(s, a) && (a.TooEarly? || a.Doom?)
    ensures Inv(ApplyReactor(s, a))
  {
    var t := ApplyReactor(s, a);
    assert Undelivered(t) == Undelivered(s);
    forall c | c in t.clients ensures WorkSeen(t, c) {
      assert WorkSeen(s, c);
    }
  }

  lemma CloseOldKeeps(s: State, c: ClientId)
    requires Inv(s) && ReactorReady(s, CloseOld(c))
    ensures Inv(ApplyReactor(s, CloseOld(c)))
  {
    var t := ApplyReactor(s, CloseOld(c));
    assert Undelivered(t) == Undelivered(s);
    assert c in s.destroying;
    forall d | d in t.clients ensures WorkSeen(t, d) {
      assert WorkSeen(s, d);
    }
    forall v | 0 <= v < |t.workers| ensures HolderMatches(t, t.workers[v]) {
      assert HolderMatches(s, s.workers[v]);
    }
  }

  lemma DeleteKeeps(s: State)
    requires Inv(s) && ReactorReady(s, DeleteDoomed)
    ensures Inv(ApplyReactor(s, DeleteDoomed))
  {
    var t := ApplyReactor(s, DeleteDoomed);
    assert Undelivered(t) == Undelivered(s);
    DeletedAreFree(s);
    forall v | 0 <= v < |t.workers| ensures HolderMatches(t, t.workers[v]) {
      assert HolderMatches(s, s.workers[v]);
    }
    forall c | c in t.clients ensures WorkSeen(t, c) {
      assert WorkSeen(s, c);
    }
  }

  /** The clients about to be deleted are neither queued, nor held, nor waiting to be added. */
  lemma DeletedAreFree(s: State)
    requires Inv(s) && s.pc.Reap?
    ensures forall i :: 0 <= i < |s.runq| ==> s.runq[i] !in s.pc.doomed
    ensures forall w :: 0 <= w < |s.workers| && !s.workers[w].Waiting? ==> s.workers[w].client !in s.pc.doomed
    ensures forall i :: 0 <= i < |s.pending| && s.pending[i].Add? ==> s.pending[i].client !in s.pc.doomed
  {
    forall w | 0 <= w < |s.workers| && !s.workers[w].Waiting? ensures s.workers[w].client !in s.pc.doomed {
      assert HolderMatches(s, s.workers[w]);
    }
    forall i | 0 <= i < |s.pending| && s.pending[i].Add? ensures s.pending[i].client !in s.pc.doomed {
      assert Undelivered(s)[i] == s.pending[i];
    }
  }

  // ----- A run state other than N has a holder -----

  predicate HeldBy(s: State, w: nat, c: ClientId) {
    w < |s.workers| && !s.workers[w].Waiting? && s.workers[w].client == c
  }

  /** On the run queue, with a worker, or on its way to the run queue. */
  predicate HasHolder(s: State, c: ClientId) {
    || c in s.runq
    || (exists w :: 0 <= w < |s.workers| && HeldBy(s, w, c))
    || (s.pc.PushRun? && s.pc.next < |s.clients| && s.clients[s.pc.next] == c)
  }

  /** The converse of the token: a client that is not idle really is somewhere. */
  predicate AllHeld(s: State) {
    forall c :: c in s.all && !s.all[c].run.N? ==> HasHolder(s, c)
  }

  /** Nobody lets go of a client and nobody leaves N. */
  lemma HeldFrame(s: State, t: State)
    requires AllHeld(s) && t.runq == s.runq && t.workers == s.workers
    requires !s.pc.PushRun? || (t.pc == s.pc && t.clients == s.clients)
    requires forall c :: c in t.all && !t.all[c].run.N? ==> c in s.all && !s.all[c].run.N?
    ensures AllHeld(t)
  {
    forall c | c in t.all && !t.all[c].run.N? ensures HasHolder(t, c) {
      assert HasHolder(s, c);
      if w :| 0 <= w < |s.workers| && HeldBy(s, w, c) { assert HeldBy(t, w, c); }
    }
  }

  /** One worker moves to another state of its hold on the client, or takes the front of the queue. */
  lemma HolderMoves(s: State, t: State, w: nat)
    requires AllHeld(s) && w < |s.workers| && t.clients == s.clients && t.pc == s.pc
    requires |t.workers| == |s.workers| && t.workers == s.workers[w := t.workers[w]]
    requires forall c :: c in t.all && !t.all[c].run.N? ==> c in s.all && !s.all[c].run.N?
    requires forall c :: c in s.runq ==> c in t.runq || HeldBy(t, w, c)
    requires forall c :: HeldBy(s, w, c) && c in t.all && !t.all[c].run.N? ==> HeldBy(t, w, c)
    ensures AllHeld(t)
  {
    forall c | c in t.all && !t.all[c].run.N? ensures HasHolder(t, c) {
      assert HasHolder(s, c);
      if v :| 0 <= v < |s.workers| && HeldBy(s, v, c) {
        if v != w { assert HeldBy(t, v, c); }
      }
    }
  }

  lemma PopHeld(s: State, w: nat)
    requires AllHeld(s) && WorkerReady(s, Pop(w))
    ensures AllHeld(ApplyWorker(s, Pop(w)))
  {
    var t := ApplyWorker(s, Pop(w));
    assert s.runq == [s.runq[0]] + t.runq;
    assert HeldBy(t, w, s.runq[0]);
    HolderMoves(s, t, w);
  }

  lemma WorkerHeld(s: State, a: Action)
    requires OneHolder(s) && AllHeld(s) && WorkerReady(s, a)
    ensures AllHeld(ApplyWorker(s, a))
  {
    var t := ApplyWorker(s, a);
    match a
    case Pop(w) => PopHeld(s, w);
    case SetRun(w) =>
      assert HolderMatches(s, s.workers[w]);
      HolderMoves(s, t, w);
    case Drain(w) => HeldFrame(s, t);
    case Ask(w) => HolderMoves(s, t, w);
    case Decide(w) => HolderMoves(s, t, w);
  }

  lemma PushOneHeld(s: State)
    requires AllHeld(s) && ReactorReady(s, PushOne)
    ensures AllHeld(ApplyReactor(s, PushOne))
  {
    var t := ApplyReactor(s, PushOne);
    var pushed := s.clients[s.pc.next];
    assert t.runq[|s.runq|] == pushed;
    forall c | c in t.all && !t.all[c].run.N? ensures HasHolder(t, c) {
      assert HasHolder(s, c);
      if w :| 0 <= w < |s.workers| && HeldBy(s, w, c) { assert HeldBy(t, w, c); }
    }
  }

  lemma ScanHeld(s: State)
    requires AllHeld(s) && ReactorReady(s, ScanOne)
    ensures AllHeld(ApplyReactor(s, ScanOne))
  {
    var t := ApplyReactor(s, ScanOne);
    var scanned := s.clients[s.pc.next];
    forall c | c in t.all && !t.all[c].run.N? ensures HasHolder(t, c) {
      if s.all[c].run.N? {
        assert c == scanned;
      } else {
        assert HasHolder(s, c);
        if w :| 0 <= w < |s.workers| && HeldBy(s, w, c) { assert HeldBy(t, w, c); }
      }
    }
  }

  lemma StepHeld(s: State, a: Action)
    requires OneHolder(s) && AllHeld(s) && Enabled(s, a)
    ensures AllHeld(Apply(s, a))
  {
    if AppReady(s, a) {
      HeldFrame(s, Apply(s, a));
    } else if WorkerReady(s, a) {
      WorkerHeld(s, a);
    } else if a.PushOne? {
      PushOneHeld(s);
    } else if a.ScanOne? {
      ScanHeld(s);
    } else {
      HeldFrame(s, Apply(s, a));
    }
  }

  // ----- Every client is registered, or its registration is on its way -----

  predicate AllKnown(s: State) {
    forall c :: c in s.all ==> c in s.clients || Add(c) in Undelivered(s)
  }

  /** No client appears, none is struck off, and no registration is dropped. */
  lemma KnownFrame(s: State, t: State)
    requires AllKnown(s) && t.clients == s.clients && t.all.Keys <= s.all.Keys
    requires forall m :: m in Undelivered(s) && m.Add? ==> m in Undelivered(t)
    ensures AllKnown(t)
  {
  }

  lemma AppKnown(s: State, a: Action)
    requires AllKnown(s) && AppReady(s, a)
    ensures AllKnown(ApplyApp(s, a))
  {
    var t := ApplyApp(s, a);
    forall m | m in Undelivered(s) ensures m in Undelivered(t) {
      assert m in s.pending ==> m in t.pending;
    }
    if a.NewClient? {
      assert t.pending[|s.pending|] == Add(a.c);
      assert Add(a.c) in Undelivered(t);
    }
  }

  lemma HandleKnown(s: State)
    requires AllKnown(s) && ReactorReady(s, HandleMsg)
    ensures AllKnown(ApplyMsg(s))
  {
    var t := ApplyMsg(s);
    var u := Undelivered(s);
    assert u[0] == s.pc.msgs[0];
    assert Undelivered(t) == u[1..];
    assert u == [u[0]] + u[1..];
    forall c | c in t.all ensures c in t.clients || Add(c) in Undelivered(t) {
      assert c in s.clients || Add(c) in u;
      if u[0] == Add(c) { assert t.clients[|s.clients|] == c; }
    }
  }

  lemma ReactorKnown(s: State, a: Action)
    requires AllKnown(s) && ReactorReady(s, a)
    ensures AllKnown(ApplyReactor(s, a))
  {
    var t := ApplyReactor(s, a);
    if a.HandleMsg? {
      HandleKnown(s);
    } else if a.DeleteDoomed? {
      assert Undelivered(t) == Undelivered(s);
    } else {
      assert Undelivered(t) == Undelivered(s);
      KnownFrame(s, t);
    }
  }

  lemma StepKnown(s: State, a: Action)
    requires AllKnown(s) && Enabled(s, a)
    ensures AllKnown(Apply(s, a))
  {
    if AppReady(s, a) {
      AppKnown(s, a);
    } else if WorkerReady(s, a) {
      KnownFrame(s, Apply(s, a));
    } else {
      ReactorKnown(s, a);
    }
  }

  // ----- Every step, every run -----

  lemma ReactorKeeps(s: State, a: Action)
    requires Inv(s) && ReactorReady(s, a)
    ensures Inv(ApplyReactor(s, a))
  {
    match a
    case BuildOne => BuildOneKeeps(s);
    case EnterPoll => EnterPollKeeps(s);
    case PollReturns(_) => MovesKeep(s, a);
    case Input(_) => ClientIoKeeps(s, a);
    case Output(_, _) => ClientIoKeeps(s, a);
    case Close(_) => ClientIoKeeps(s, a);
    case Pull => PullKeeps(s);
    case SkipPull => MovesKeep(s, a);
    case HandleMsg => HandleMsgKeeps(s);
    case AttendOne => AttendKeeps(s);
    case HandleDone => MovesKeep(s, a);
    case ScanOne => ScanKeeps(s);
    case PushOne => PushOneKeeps(s);
    case StartReap(due) => StartReapKeeps(s, due);
    case TooEarly(_) => ReapStepKeeps(s, a);
    case CloseOld(c) => CloseOldKeeps(s, c);
    case Doom(_) => ReapStepKeeps(s, a);
    case DeleteDoomed => DeleteKeeps(s);
  }

  lemma StepSafe(s: State, a: Action)
    requires Inv(s) && Enabled(s, a)
    ensures Inv(Apply(s, a))
  {
    if AppReady(s, a) { AppKeeps(s, a); }
    else if WorkerReady(s, a) { WorkerKeeps(s, a); }
    else { ReactorKeeps(s, a); }
  }

  /** Every step of the reactor, a worker or the application keeps the whole invariant. */
  lemma StepKeeps(s: State, a: Action)
    requires Inv(s) && AllHeld(s) && AllKnown(s) && Enabled(s, a)
    ensures var t := Apply(s, a); Inv(t) && AllHeld(t) && AllKnown(t)
  {
    StepSafe(s, a);
    StepHeld(s, a);
    StepKnown(s, a);
  }

  lemma {:induction false} RunKeeps(s: State, run: seq<Action>)
    requires Inv(s) && AllHeld(s) && AllKnown(s) && Possible(s, run)
    ensures var t := Run(s, run); Inv(t) && AllHeld(t) && AllKnown(t)
    decreases |run|
  {
    if run != [] {
      StepKeeps(s, run[0]);
      RunKeeps(Apply(s, run[0]), run[1..]);
    }
  }

  // ----- The theorems -----

  /** Whenever the reactor waits in poll, a client with output to send has POLLOUT requested, or
      the pipe already holds a byte, or the thread that queued the output is about to invalidate. */
  lemma NoWakeupIsLost(nworkers: nat, run: seq<Action>, c: ClientId)
    requires Possible(Init(nworkers), run)
    ensures var s := Run(Init(nworkers), run);
            s.pc.Poll? && c in s.clients && c in s.all && s.all[c].open && s.all[c].outq > 0 ==>
              (c in s.pc.mask && s.pc.mask[c]) || s.pipe > 0 || s.invalidations > 0
  {
    InitInv(nworkers);
    RunKeeps(Init(nworkers), run);
  }

  /** Coalescing loses no message: something is waiting exactly when the pipe is readable. */
  lemma PipeAnnouncesMessages(nworkers: nat, run: seq<Action>)
    requires Possible(Init(nworkers), run)
    ensures var s := Run(Init(nworkers), run); s.pending != [] <==> s.pipe > 0
  {
    InitInv(nworkers);
    RunKeeps(Init(nworkers), run);
  }

  /** Every client that exists is registered with the reactor, or its registration is still among
      the messages: waiting with the pipe readable, or pulled and being handled. In poll that
      leaves a registered client or a readable pipe. */
  lemma EveryClientIsRegistered(nworkers: nat, run: seq<Action>, c: ClientId)
    requires Possible(Init(nworkers), run) && c in Run(Init(nworkers), run).all
    ensures var s := Run(Init(nworkers), run);
            && (c in s.clients || Add(c) in Undelivered(s))
            && (s.pc.Poll? ==> c in s.clients || s.pipe > 0)
  {
    InitInv(nworkers);
    RunKeeps(Init(nworkers), run);
  }

  /** A worker that will look at the client's input before it lets go. */
  predicate WillLook(k: Worker, c: ClientId) {
    k == Popped(c) || k == Working(c) || k == Deciding(c, true)
  }

  /** Whenever the reactor waits in poll, a registered client with input waiting is on the run
      queue, or with a worker that will look again, or it is being destroyed and the poll has a
      timeout. */
  lemma NoInputIsStranded(nworkers: nat, run: seq<Action>, c: ClientId)
    requires Possible(Init(nworkers), run)
    ensures var s := Run(Init(nworkers), run);
            s.pc.Poll? && c in s.clients && c in s.all && s.all[c].fifo > 0 ==>
              || c in s.runq
              || (exists w :: 0 <= w < |s.workers| && WillLook(s.workers[w], c))
              || (c in s.destroying && s.pc.timeout)
  {
    InitInv(nworkers);
    RunKeeps(Init(nworkers), run);
    var s := Run(Init(nworkers), run);
    if s.pc.Poll? && c in s.clients && s.all[c].fifo > 0 {
      assert WorkSeen(s, c);
      if Covered(s, c) {
        assert HasHolder(s, c);
        if w :| 0 <= w < |s.workers| && HeldBy(s, w, c) { assert WillLook(s.workers[w], c); }
      }
    }
  }

  /** A client is on the run queue at most once, no two workers hold the same client, none holds a
      queued one, and everything queued, held or registered still exists. */
  lemma RunStateIsSafe(nworkers: nat, run: seq<Action>)
    requires Possible(Init(nworkers), run)
    ensures var s := Run(Init(nworkers), run);
            && Distinct(s.runq)
            && (forall v, w :: 0 <= v < w < |s.workers| && !s.workers[v].Waiting? && !s.workers[w].Waiting? ==>
                  s.workers[v].client != s.workers[w].client)
            && (forall w :: 0 <= w < |s.workers| && !s.workers[w].Waiting? ==>
                  s.workers[w].client in s.all && s.workers[w].client !in s.runq)
            && (forall i :: 0 <= i < |s.runq| ==> s.runq[i] in s.all)
            && (forall i :: 0 <= i < |s.clients| ==> s.clients[i] in s.all)
  {
    InitInv(nworkers);
    RunKeeps(Init(nworkers), run);
    var s := Run(Init(nworkers), run);
    forall w | 0 <= w < |s.workers| && !s.workers[w].Waiting? ensures s.workers[w].client in s.all {
      assert HolderMatches(s, s.workers[w]);
    }
  }

  /** The reactor never deletes a client that is queued, held by a worker or not yet registered. */
  lemma DeletionIsSafe(nworkers: nat, run: seq<Action>)
    requires Possible(Init(nworkers), run) && Run(Init(nworkers), run).pc.Reap?
    ensures var s := Run(Init(nworkers), run);
            forall c :: c in s.pc.doomed ==>
              && c in s.clients && c in s.all && s.all[c].run.N? && !s.all[c].open && s.all[c].wantDelete
              && c !in s.runq
              && (forall w :: 0 <= w < |s.workers| && !s.workers[w].Waiting? ==> s.workers[w].client != c)
              && Add(c) !in s.pending
  {
    InitInv(nworkers);
    RunKeeps(Init(nworkers), run);
    DeletedAreFree(Run(Init(nworkers), run));
  }
}
