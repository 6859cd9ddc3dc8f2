/** What the reactor gets done, over every interleaving: releases and the request to stop are not
    missed, the poll set is exact, queues count what was put into them, and an idle closed client
    is really struck off (libexio/Reactor.cc, libexio/Client.cc). */
module ReactorDelivery {
  import opened Reactor
  import opened ReactorSafety

  // ----- Releases -----

  /** An attention message at `j` that finds the client registered. */
  predicate AttnFor(s: State, msgs: seq<Msg>, j: nat, c: ClientId) {
    j < |msgs| && msgs[j].Attn? && (c in s.clients || Add(c) in msgs[..j])
  }

  predicate AttnComing(s: State, msgs: seq<Msg>, c: ClientId) {
    exists j :: 0 <= j < |msgs| && AttnFor(s, msgs, j, c)
  }

  /** The walk over the clients that is under way has yet to reach the client. */
  predicate WalkComing(s: State, c: ClientId) {
    s.pc.Attend? && exists i :: s.pc.next <= i < |s.clients| && s.clients[i] == c
  }

  /** A released client is being destroyed, or will be noticed. */
  predicate ReleaseSeen(s: State, c: ClientId) {
    c in s.destroying || WalkComing(s, c) || AttnComing(s, Undelivered(s), c)
  }

  predicate Attended(s: State) {
    forall c :: c in s.all && s.all[c].wantDelete ==> ReleaseSeen(s, c)
  }

  /** More messages behind the old ones do not hide an attention message. */
  lemma AttnStays(s: State, t: State, u: seq<Msg>, v: seq<Msg>, c: ClientId)
    requires AttnComing(s, u, c) && u <= v && (c in s.clients ==> c in t.clients)
    ensures AttnComing(t, v, c)
  {
    var j :| 0 <= j < |u| && AttnFor(s, u, j, c);
    assert v[..j] == u[..j];
    assert AttnFor(t, v, j, c);
  }

  lemma SeenFrame(s: State, t: State, c: ClientId)
    requires ReleaseSeen(s, c) && t.clients == s.clients && s.destroying <= t.destroying
    requires Undelivered(s) <= Undelivered(t) && (s.pc.Attend? ==> t.pc == s.pc)
    ensures ReleaseSeen(t, c)
  {
    if AttnComing(s, Undelivered(s), c) { AttnStays(s, t, Undelivered(s), Undelivered(t), c); }
    if WalkComing(s, c) {
      var i :| s.pc.next <= i < |s.clients| && s.clients[i] == c;
      assert t.clients[i] == c;
    }
  }

  lemma PushGrows(s: State, m: Msg)
    ensures Undelivered(s) <= Undelivered(Push(s, m))
    ensures !m.NoEvent? ==> Undelivered(Push(s, m)) == Undelivered(s) + [m]
  {
    var u, v := Undelivered(s), Undelivered(Push(s, m));
    assert Push(s, m).pending == s.pending ==> v == u;
    assert Push(s, m).pending == s.pending + [m] ==> v == u + [m];
  }

  lemma ReleaseAttended(s: State, c: ClientId)
    requires Attended(s) && AllKnown(s) && AppReady(s, Release(c))
    ensures Attended(ApplyApp(s, Release(c)))
  {
    var t := ApplyApp(s, Release(c));
    var s1 := Put(s, c, s.all[c].(wantDelete := true));
    var u := Undelivered(s);
    assert Undelivered(s1) == u;
    PushGrows(s1, Attn);
    forall d | d in t.all && t.all[d].wantDelete ensures ReleaseSeen(t, d) {
      if d == c {
        assert (u + [Attn])[..|u|] == u;
        assert AttnFor(t, u + [Attn], |u|, c);
      } else {
        SeenFrame(s, t, d);
      }
    }
  }

  lemma AppAttended(s: State, a: Action)
    requires Attended(s) && AllKnown(s) && AppReady(s, a)
    ensures Attended(ApplyApp(s, a))
  {
    if a.Release? {
      ReleaseAttended(s, a.c);
    } else {
      var t := ApplyApp(s, a);
      AppUndelivered(s, a);
      forall c | c in t.all && t.all[c].wantDelete ensures ReleaseSeen(t, c) { SeenFrame(s, t, c); }
    }
  }

  lemma AppUndelivered(s: State, a: Action)
    requires AppReady(s, a)
    ensures Undelivered(s) <= Undelivered(ApplyApp(s, a))
  {
    match a
    case NewClient(c) => PushGrows(Put(s, c, Fresh), Add(c));
    case QueueOut(c) =>
    case Invalidate => PushGrows(s.(invalidations := s.invalidations - 1), NoEvent);
    case Release(c) => PushGrows(Put(s, c, s.all[c].(wantDelete := true)), Attn);
    case Shutdown => PushGrows(s.(stopping := true), Terminate);
  }

  lemma WorkerAttended(s: State, a: Action)
    requires Attended(s) && WorkerReady(s, a)
    ensures Attended(ApplyWorker(s, a))
  {
    var t := ApplyWorker(s, a);
    assert Undelivered(t) == Undelivered(s);
    forall c | c in t.all && t.all[c].wantDelete ensures ReleaseSeen(t, c) { SeenFrame(s, t, c); }
  }

  /** Handling the first message: an attention message starts the walk, a registration makes the
      client one the later attention messages find. */
  lemma HandleSees(s: State, c: ClientId)
    requires ReactorReady(s, HandleMsg) && ReleaseSeen(s, c)
    ensures ReleaseSeen(ApplyMsg(s), c)
  {
    var t := ApplyMsg(s);
    var u := Undelivered(s);
    assert u[0] == s.pc.msgs[0];
    assert Undelivered(t) == u[1..];
    if AttnComing(s, u, c) {
      var j :| 0 <= j < |u| && AttnFor(s, u, j, c);
      if j == 0 {
        assert WalkComing(t, c) by { var i :| 0 <= i < |s.clients| && s.clients[i] == c; assert t.clients[i] == c; }
      } else {
        assert u[..j] == [u[0]] + u[1..][..j - 1];
        if c !in s.clients && u[0] == Add(c) { assert t.clients[|s.clients|] == c; }
        assert AttnFor(t, u[1..], j - 1, c);
      }
    }
  }

  lemma WalkSees(s: State, c: ClientId)
    requires ReactorReady(s, AttendOne) && ReleaseSeen(s, c) && c in s.all && s.all[c].wantDelete
    ensures ReleaseSeen(ApplyReactor(s, AttendOne), c)
  {
    var t := ApplyReactor(s, AttendOne);
    assert Undelivered(t) == Undelivered(s);
    if AttnComing(s, Undelivered(s), c) { AttnStays(s, t, Undelivered(s), Undelivered(t), c); }
    if WalkComing(s, c) {
      var i :| s.pc.next <= i < |s.clients| && s.clients[i] == c;
      if i > s.pc.next { assert t.clients[i] == c; }
    }
  }

  lemma DeletionSees(s: State, c: ClientId)
    requires ReactorReady(s, DeleteDoomed) && ReleaseSeen(s, c) && c !in s.pc.doomed
    ensures ReleaseSeen(ApplyReactor(s, DeleteDoomed), c)
  {
    var t := ApplyReactor(s, DeleteDoomed);
    assert Undelivered(t) == Undelivered(s);
    if AttnComing(s, Undelivered(s), c) { AttnStays(s, t, Undelivered(s), Undelivered(t), c); }
  }

  lemma ReactorAttended(s: State, a: Action)
    requires Attended(s) && ReactorReady(s, a)
    ensures Attended(ApplyReactor(s, a))
  {
    var t := ApplyReactor(s, a);
    forall c | c in t.all && t.all[c].wantDelete ensures ReleaseSeen(t, c) {
      assert ReleaseSeen(s, c);
      if a.HandleMsg? {
        HandleSees(s, c);
      } else if a.AttendOne? {
        WalkSees(s, c);
      } else if a.DeleteDoomed? {
        DeletionSees(s, c);
      } else {
        assert Undelivered(t) == Undelivered(s);
        SeenFrame(s, t, c);
      }
    }
  }

  // ----- The request to stop -----

  /** A reactor about to poll has the request to stop waiting for it. */
  predicate StopAnnounced(s: State) {
    (s.pc.Build? || s.pc.Poll?) && s.stopping ==> s.pending != []
  }

  /** The message to stop sets the flag, and a round that ends with the flag set is the last. */
  lemma StopEndsTheLoop(s: State)
    ensures ReactorReady(s, HandleMsg) && s.pc.msgs[0].Terminate? ==> ApplyMsg(s).stopping
    ensures ReactorReady(s, DeleteDoomed) ==>
              var t := ApplyReactor(s, DeleteDoomed); if s.stopping then t.pc.Stopped? else t.pc == Build(0, map[])
    ensures s.stopping ==> forall a :: Enabled(s, a) ==> Apply(s, a).stopping
  {
  }

  // ----- The poll set -----

  /** Only open clients are polled, and POLLOUT is asked for only where there is output. */
  predicate MaskIsNeeded(s: State, mask: map<ClientId, bool>) {
    forall c :: c in mask ==> c in s.all && s.all[c].open && (mask[c] ==> s.all[c].outq > 0)
  }

  predicate PollNeeded(s: State) {
    s.pc.Build? || s.pc.Poll? ==> MaskIsNeeded(s, s.pc.mask)
  }

  lemma StepStopsAndPolls(s: State, a: Action)
    requires StopAnnounced(s) && PollNeeded(s) && Enabled(s, a)
    ensures StopAnnounced(Apply(s, a)) && PollNeeded(Apply(s, a))
  {
    if AppReady(s, a) { AppStopsAndPolls(s, a); }
    else if WorkerReady(s, a) { WorkerStopsAndPolls(s, a); }
    else { ReactorStopsAndPolls(s, a); }
  }

  lemma AppStopsAndPolls(s: State, a: Action)
    requires StopAnnounced(s) && PollNeeded(s) && AppReady(s, a)
    ensures StopAnnounced(ApplyApp(s, a)) && PollNeeded(ApplyApp(s, a))
  {
  }

  lemma WorkerStopsAndPolls(s: State, a: Action)
    requires StopAnnounced(s) && PollNeeded(s) && WorkerReady(s, a)
    ensures StopAnnounced(ApplyWorker(s, a)) && PollNeeded(ApplyWorker(s, a))
  {
  }

  lemma ReactorStopsAndPolls(s: State, a: Action)
    requires StopAnnounced(s) && PollNeeded(s) && ReactorReady(s, a)
    ensures StopAnnounced(ApplyReactor(s, a)) && PollNeeded(ApplyReactor(s, a))
  {
  }

  // ----- Every run -----

  lemma StepDelivers(s: State, a: Action)
    requires Attended(s) && AllKnown(s) && Enabled(s, a)
    ensures Attended(Apply(s, a))
  {
    if AppReady(s, a) { AppAttended(s, a); }
    else if WorkerReady(s, a) { WorkerAttended(s, a); }
    else { ReactorAttended(s, a); }
  }

  lemma {:induction false} RunDelivers(s: State, run: seq<Action>)
    requires Inv(s) && AllHeld(s) && AllKnown(s) && Attended(s) && StopAnnounced(s) && PollNeeded(s) && Possible(s, run)
    ensures var t := Run(s, run); Inv(t) && Attended(t) && StopAnnounced(t) && PollNeeded(t)
    decreases |run|
  {
    if run != [] {
      StepKeeps(s, run[0]);
      StepDelivers(s, run[0]);
      StepStopsAndPolls(s, run[0]);
      RunDelivers(Apply(s, run[0]), run[1..]);
    }
  }

  /** Whenever the reactor polls, a released client is being destroyed, or the pipe is readable. */
  lemma NoReleaseIsForgotten(nworkers: nat, run: seq<Action>, c: ClientId)
    requires Possible(Init(nworkers), run)
    ensures var s := Run(Init(nworkers), run);
            s.pc.Poll? && c in s.all && s.all[c].wantDelete ==> c in s.destroying || s.pipe > 0
  {
    InitInv(nworkers);
    RunDelivers(Init(nworkers), run);
    var s := Run(Init(nworkers), run);
    if s.pc.Poll? && c in s.all && s.all[c].wantDelete { assert ReleaseSeen(s, c); }
  }

  /** Whenever the reactor polls after it was asked to stop, the pipe is readable. */
  lemma NoStopIsMissed(nworkers: nat, run: seq<Action>)
    requires Possible(Init(nworkers), run)
    ensures var s := Run(Init(nworkers), run); s.pc.Poll? && s.stopping ==> s.pipe > 0
  {
    InitInv(nworkers);
    RunDelivers(Init(nworkers), run);
  }

  /** Whenever the reactor polls, it polls exactly its open clients, and asks for POLLOUT only
      where there is something to send. */
  lemma PollSetIsExact(nworkers: nat, run: seq<Action>, c: ClientId)
    requires Possible(Init(nworkers), run)
    ensures var s := Run(Init(nworkers), run);
            s.pc.Poll? ==>
              && (c in s.pc.mask <==> c in s.clients && c in s.all && s.all[c].open)
              && (c in s.pc.mask && s.pc.mask[c] ==> s.all[c].outq > 0)
  {
    InitInv(nworkers);
    RunDelivers(Init(nworkers), run);
    var s := Run(Init(nworkers), run);
    if s.pc.Poll? && c in s.clients { assert OutputSeen(s, c, s.pc.mask); }
  }

  /** When poll returns, every open client can be served in this round, and only those. */
  lemma EveryOpenClientIsServed(nworkers: nat, run: seq<Action>, pipeReady: bool, c: ClientId)
    requires Possible(Init(nworkers), run) && ReactorReady(Run(Init(nworkers), run), PollReturns(pipeReady))
    ensures var s := Run(Init(nworkers), run);
      var t := ApplyReactor(s, PollReturns(pipeReady));
      t.pc.Dispatch? && (c in t.pc.ready <==> c in s.clients && c in s.all && s.all[c].open)
  {
    PollSetIsExact(nworkers, run, c);
  }

  // ----- The queues of a client -----

  predicate Drains(s: State, a: Action, c: ClientId) {
    a.Drain? && a.w < |s.workers| && !s.workers[a.w].Waiting? && s.workers[a.w].client == c
  }

  /** What one step puts into the queues of a client and takes out of them; who closes it and who
      releases it. */
  predicate Counted(s: State, a: Action, c: ClientId, k: Client, k': Client) {
    && (k'.open ==> k.open) && (a == Close(c) || a == CloseOld(c) ==> !k'.open)
    && (k.open && !k'.open ==> a == Close(c) || a == CloseOld(c))
    && k'.wantDelete == (k.wantDelete || a == Release(c))
    && (Drains(s, a, c) ==> k'.fifo == 0)
    && (!Drains(s, a, c) ==> k'.fifo == k.fifo + (if a == Input(c) || (k.open && !k'.open) then 1 else 0))
    && (a.Output? && a.c == c ==> k'.outq == a.left <= k.outq)
    && (!(a.Output? && a.c == c) ==> k'.outq == k.outq + if a == QueueOut(c) then 1 else 0)
  }

  lemma AppCounts(s: State, a: Action, c: ClientId)
    requires AppReady(s, a) && c in s.all
    ensures c in ApplyApp(s, a).all && Counted(s, a, c, s.all[c], ApplyApp(s, a).all[c])
  {
  }

  lemma WorkerCounts(s: State, a: Action, c: ClientId)
    requires WorkerReady(s, a) && c in s.all
    ensures c in ApplyWorker(s, a).all && Counted(s, a, c, s.all[c], ApplyWorker(s, a).all[c])
  {
  }

  lemma ReactorCounts(s: State, a: Action, c: ClientId)
    requires ReactorReady(s, a) && c in s.all && c in ApplyReactor(s, a).all
    ensures Counted(s, a, c, s.all[c], ApplyReactor(s, a).all[c])
  {
  }

  /** Every step of every thread is accounted for in the queues of every client. */
  lemma StepCounts(s: State, a: Action, c: ClientId)
    requires Enabled(s, a) && c in s.all && c in Apply(s, a).all
    ensures Counted(s, a, c, s.all[c], Apply(s, a).all[c])
  {
    if AppReady(s, a) { AppCounts(s, a, c); }
    else if WorkerReady(s, a) { WorkerCounts(s, a, c); }
    else { ReactorCounts(s, a, c); }
  }

  /** How many of the actions put input into the client's queue. */
  function Inputs(run: seq<Action>, c: ClientId): nat {
    if run == [] then 0 else (if run[0] == Input(c) then 1 else 0) + Inputs(run[1..], c)
  }

  /** Through any run in which no worker drains the client, its input queue grows by exactly what
      was read, and by one sentinel if it was closed. */
  lemma {:induction false} NothingReadIsLost(s: State, run: seq<Action>, c: ClientId)
    requires Possible(s, run) && c in s.all && c in Run(s, run).all
    requires NeverDrained(s, run, c) && NeverGone(s, run, c)
    ensures var k, k' := s.all[c], Run(s, run).all[c];
      k'.fifo == k.fifo + Inputs(run, c) + (if k.open && !k'.open then 1 else 0) && (k'.open ==> k.open)
    decreases |run|
  {
    if run != [] {
      StepCounts(s, run[0], c);
      NothingReadIsLost(Apply(s, run[0]), run[1..], c);
    }
  }

  predicate NeverDrained(s: State, run: seq<Action>, c: ClientId)
    requires Possible(s, run)
    decreases |run|
  {
    run == [] || (!Drains(s, run[0], c) && NeverDrained(Apply(s, run[0]), run[1..], c))
  }

  predicate NeverGone(s: State, run: seq<Action>, c: ClientId)
    requires Possible(s, run)
    decreases |run|
  {
    run == [] || (c in Apply(s, run[0]).all && NeverGone(Apply(s, run[0]), run[1..], c))
  }

  // ----- Striking off -----

  /** A destruction cycle that is due visits every client being destroyed, one that is not visits
      none; and each visit ends with the client closed, doomed, or left for later. */
  lemma DueCycleVisitsAll(s: State, due: bool)
    requires ReactorReady(s, StartReap(due))
    ensures var t := ApplyReactor(s, StartReap(due));
      t.pc.Reap? && t.pc.doomed == {} && forall c :: c in t.pc.todo <==> due && c in s.destroying
  {
  }

  /** A client of the destroying set that is closed and idle when its turn comes is gone after the
      round: no longer registered, no longer being destroyed, deleted. */
  lemma IdleClientIsStruckOff(s: State, c: ClientId)
    requires ReactorReady(s, Doom(c)) && s.all[c].run.N? && c in s.destroying
    ensures var t := ApplyReactor(s, Doom(c));
      t.pc.Reap? && c in t.pc.doomed && c !in t.pc.todo
      && (t.pc.todo == {} ==> var u := ApplyReactor(t, DeleteDoomed); c !in u.all && c !in u.clients && c !in u.destroying)
  {
  }

  /** Striking off touches nobody else, and a client that is queued or with a worker is spared. */
  lemma OthersAreSpared(s: State, c: ClientId)
    requires ReactorReady(s, DeleteDoomed) && c !in s.pc.doomed
    ensures var t := ApplyReactor(s, DeleteDoomed);
      && (c in t.all <==> c in s.all) && (c in s.all ==> t.all[c] == s.all[c])
      && (c in t.clients <==> c in s.clients) && (c in t.destroying <==> c in s.destroying)
  {
  }
}
