/** The composed system never gets stuck early. A step is ordinary when it is neither a
    new call, nor a failure, nor a spurious wake-up, nor work of somebody else. A state
    without failures in which no ordinary step is possible is a state at rest, so every
    call has been answered there. Handlers that take forever do not change this for
    the other calls, as long as they are fewer than the workers. */
module Progress {
  import opened Common
  import opened Wire
  import opened Framing
  import opened Dispatch
  import Cl = ClientProtocol
  import Co = ConnectionProtocol
  import Po = PoolProtocol
  import opened EndToEnd
  import opened Matching
  import opened Quiescence

  predicate OrdinaryInPool<T>(step: Po.Action<T>)
  {
    step.CountPending? || step.NotifyOne? || step.Check? || step.Begin? || step.EndBody? || step.Retire?
    || step.Complete? || step.Release?
  }

  /** The steps by which the system works off what it has, while the handlers of the
      calls in `slow` do not return. */
  predicate Ordinary(s: State, a: Action, slow: set<nat>)
  {
    match a
    case Caller(call) => call.Register? || call.Enqueue?
    case ToServer(bytes) => bytes != []
    case ToClient(bytes) => bytes != []
    case PoolStep(step) => OrdinaryInPool(step)
    case Process(k, _) => k < |s.client.handed| && s.client.handed[k] !in slow
    case ConnStep(move) => move.SendPush?
    case _ =>
      !a.ClientWriteFailed? && !a.ServerReadError? && !a.SubmitRefused? && !a.ConnWriteFailed? && !a.ClientReadError?
  }

  /** No channel is broken, both read loops are alive, the connection is open, and the
      pool has not been stopped. */
  predicate Sound(s: State)
  {
    && !s.toServerBroken && !s.toClientBroken && !s.client.loop.Stopped? && Reading(s.clientRead)
    && Reading(s.serverRead) && s.conn.reading && !s.conn.closed && !s.pool.stop
  }

  ghost predicate Stuck(s: State, slow: set<nat>)
  {
    forall a :: Ordinary(s, a, slow) ==> !Enabled(s, a)
  }

  /** The same for the steps other than the pool's own. */
  ghost predicate LinkStuck(s: State, slow: set<nat>)
  {
    forall a :: Ordinary(s, a, slow) && !a.PoolStep? ==> !Enabled(s, a)
  }

  lemma StuckLinks(s: State, slow: set<nat>)
    requires Stuck(s, slow)
    ensures LinkStuck(s, slow)
  {
    hide Ordinary, Enabled;
  }

  // ------------------------------------------------------------------ the client

  ghost predicate AllQueued(c: Cl.State) { forall i :: 0 <= i < |c.phase| ==> c.phase[i].Queued? }

  lemma CallersDone(s: State, slow: set<nat>)
    requires Cl.SeqInv(s.client) && LinkStuck(s, slow)
    ensures AllQueued(s.client)
  {
    hide Cl.SeqOf;
    forall c | 0 <= c < |s.client.phase| ensures s.client.phase[c].Queued? {
      assert !Enabled(s, Caller(Cl.Register(c)));
      assert !Enabled(s, Caller(Cl.Enqueue(c)));
    }
  }

  lemma ClientWritesDone(s: State, slow: set<nat>)
    requires Cl.SeqInv(s.client) && Cl.WriteInv(s.client) && LinkStuck(s, slow) && Sound(s)
    requires ChannelInv(s.serverRead, s.toServer, s.requests)
    ensures s.client.writers == 0 && s.client.inFlight == [] && s.client.loop.Listening?
    ensures s.toServer == EncodeAll(s.requests)
  {
    hide Cl.SeqOf, EncodeAll, ReadInv;
    if s.client.queue != [] {
      assert s.client.enqueued[|s.client.handed|] == s.client.queue[0];
    }
    assert !Enabled(s, ClientStartWrite);
    assert !Enabled(s, ClientFulfil);
    var rest := Remainder(s.toServer, EncodeAll(s.requests));
    assert rest == [] || !Enabled(s, ToServer(rest));
    assert !Enabled(s, ClientWriteDone(0));
  }

  // -------------------------------------------------------------------- the pool

  /** No step of the pool is possible but the end of a task body. */
  ghost predicate PoolStuck<T(!new)>(p: Po.State<T>)
  {
    forall step :: OrdinaryInPool(step) && !step.EndBody? ==> !Po.Enabled(p, step)
  }

  lemma NotificationsDone<T(!new)>(p: Po.State<T>)
    requires PoolStuck(p)
    ensures !p.inEnqueue && p.owed == 0
  {
    assert !Po.Enabled(p, Po.CountPending);
    if Po.AnyAsleep(p.workers) {
      var w :| 0 <= w < |p.workers| && p.workers[w].Asleep?;
      assert !Po.Enabled(p, Po.NotifyOne(Some(w)));
    } else {
      assert !Po.Enabled(p, Po.NotifyOne(None));
    }
  }

  lemma WorkersStill<T(!new)>(p: Po.State<T>, w: nat)
    requires PoolStuck(p) && !p.inEnqueue && w < |p.workers|
    ensures p.workers[w].Asleep? || p.workers[w].Running? || p.workers[w].Exited?
  {
    hide Po.AnyAsleep;
    assert !Po.Enabled(p, Po.Check(w));
    assert !Po.Enabled(p, Po.Begin(w));
    assert !Po.Enabled(p, Po.Retire(w));
    assert !Po.Enabled(p, Po.Complete(w));
    assert !Po.Enabled(p, Po.Release(w));
  }

  /** Then a worker that is not inside a task sleeps, and that only with nothing queued. */
  lemma FreeWorkerMeansEmpty<T(!new)>(p: Po.State<T>, free: nat)
    requires Po.WakeInv(p) && Po.ParallelInv(p) && PoolStuck(p) && !p.stop
    requires free < |p.workers| && !p.workers[free].Running?
    ensures p.tasks == [] && !p.inEnqueue
  {
    hide PoolStuck;
    NotificationsDone(p);
    forall w | 0 <= w < |p.workers| ensures !Po.IsChecking(p.workers[w]) {
      WorkersStill(p, w);
    }
    WorkersStill(p, free);
    assert p.workers[free].Asleep?;
    Po.CountNone(p.workers, Po.IsChecking);
  }

  lemma StuckPool(s: State, slow: set<nat>)
    requires Stuck(s, slow)
    ensures PoolStuck(s.pool)
  {
    hide Po.Enabled;
    forall step | OrdinaryInPool(step) && !step.EndBody? ensures !Po.Enabled(s.pool, step) {
      assert !Enabled(s, PoolStep(step));
    }
  }

  /** Worker `w` is inside the handler of one of the calls in `slow`. */
  predicate InSlowHandler(s: State, w: nat, slow: set<nat>)
  {
    && w < |s.pool.workers| && s.pool.workers[w].Running?
    && s.pool.workers[w].task < |s.pool.accepted| && s.pool.accepted[s.pool.workers[w].task].Mine?
    && var k := s.pool.accepted[s.pool.workers[w].task].job;
       k < |s.client.handed| && s.client.handed[k] in slow
  }

  lemma TaskOfWorker(p: Po.State<Task>, w: nat)
    requires Po.Inv(p) && w < |p.workers| && p.workers[w].Running?
    ensures p.workers[w].task < |p.accepted|
  {
    hide Po.CountersInv, Po.WakeInv, Po.ParallelInv;
    assert |p.taken| <= |p.accepted|;
  }

  lemma NoServicesFrame()
    ensures HandlersFrame(map[])
  {
  }

  /** A job that runs and is not slow can take its next step. */
  lemma JobMoves(s: State, slow: set<nat>, w: nat, k: nat)
    requires LinkStuck(s, slow) && WorkerRuns(s, w, k) && |s.jobs| == |s.serverRead.delivered|
    requires k < |s.jobs| && k < |s.client.handed|
    requires s.jobs[k].Sent? ==> s.jobs[k].send < |s.conn.phase|
    ensures JobDone(s, k) || s.client.handed[k] in slow
  {
    hide HandlersFrame, Po.Enabled, Cl.Enabled, EncodeAll;
    assert Runs(s, k);
    NoServicesFrame();
    assert s.client.handed[k] in slow || !Enabled(s, Process(k, map[]));
    assert !Enabled(s, Send(k));
    assert s.jobs[k].Sent? ==> !Enabled(s, ConnStep(Co.SendPush(s.jobs[k].send)));
  }

  lemma JobHasCall(s: State, k: nat)
    requires Inv(s) && k < |s.jobs|
    ensures |s.jobs| == |s.serverRead.delivered| && k < |s.client.handed|
    ensures s.jobs[k].Sent? ==> s.jobs[k].send < |s.conn.phase|
  {
    hide PartsInv, ChannelInv, RequestInv, PoolLink, JobOk, ReplyOk;
    DeliveredIsRequest(s, k);
    assert |s.conn.phase| == |s.conn.frames| by { FramesPerSend(s); }
  }

  lemma FramesPerSend(s: State)
    requires PartsInv(s)
    ensures |s.conn.phase| == |s.conn.frames|
  {
    hide Cl.Inv, Po.Inv;
  }

  lemma OnlySlowRun(s: State, slow: set<nat>, w: nat)
    requires Inv(s) && Stuck(s, slow) && w < |s.pool.workers| && s.pool.workers[w].Running?
    ensures InSlowHandler(s, w, slow)
  {
    hide Cl.Inv, Co.Inv, Po.Inv, ChannelInv, RequestInv, JobInv, ReplyInv, JobDone, Stuck, LinkStuck, Enabled;
    TaskOfWorker(s.pool, w);
    StuckLinks(s, slow);
    EndBodyBlocked(s, slow, w);
    var k := s.pool.accepted[s.pool.workers[w].task].job;
    JobHasCall(s, k);
    JobMoves(s, slow, w, k);
  }

  lemma EndBodyBlocked(s: State, slow: set<nat>, w: nat)
    requires Stuck(s, slow) && w < |s.pool.workers| && s.pool.workers[w].Running?
    requires s.pool.workers[w].task < |s.pool.accepted|
    ensures var t := s.pool.accepted[s.pool.workers[w].task]; t.Mine? && !JobDone(s, t.job)
  {
    hide JobDone;
    assert !Enabled(s, PoolStep(Po.EndBody(w)));
  }

  lemma {:induction false} DistinctFit<V(!new)>(q: seq<V>, keys: set<V>)
    requires NoDup(q) && forall i :: 0 <= i < |q| ==> q[i] in keys
    ensures |q| <= |keys|
  {
    if q != [] {
      var last := q[|q| - 1];
      DistinctFit(q[..|q| - 1], keys - {last});
    }
  }

  function SlowCall(s: State, w: nat, slow: set<nat>): nat
    requires InSlowHandler(s, w, slow)
  {
    s.client.handed[s.pool.accepted[s.pool.workers[w].task].job]
  }

  /** Different workers are inside handlers of different calls. */
  lemma SlowCallsDiffer(s: State, slow: set<nat>, v: nat, w: nat)
    requires Inv(s) && v < w && InSlowHandler(s, v, slow) && InSlowHandler(s, w, slow)
    ensures SlowCall(s, v, slow) != SlowCall(s, w, slow)
  {
    hide ChannelInv, RequestInv, JobInv, ReplyInv, Cl.Inv, Co.Inv, Po.CountersInv, Po.WakeInv, Po.ParallelInv;
    var t, u := s.pool.workers[v].task, s.pool.workers[w].task;
    assert s.pool.accepted[t] != s.pool.accepted[u];
    if SlowCall(s, v, slow) == SlowCall(s, w, slow) {
      HandedOnce(s.client, s.pool.accepted[t].job, s.pool.accepted[u].job);
    }
  }

  lemma SomeWorkerFree(s: State, slow: set<nat>) returns (w: nat)
    requires Inv(s) && |slow| < |s.pool.workers|
    ensures w < |s.pool.workers| && !InSlowHandler(s, w, slow)
  {
    hide Inv, InSlowHandler;
    var ws := s.pool.workers;
    if forall v: nat :: v < |ws| ==> InSlowHandler(s, v, slow) {
      var q := seq(|ws|, v requires 0 <= v < |ws| => SlowCall(s, v, slow));
      forall v, w | 0 <= v < w < |q| ensures q[v] != q[w] {
        SlowCallsDiffer(s, slow, v, w);
      }
      forall v | 0 <= v < |q| ensures q[v] in slow {
        SlowCallIsSlow(s, v, slow);
      }
      DistinctFit(q, slow);
      assert false;
    }
    w :| w < |ws| && !InSlowHandler(s, w, slow);
  }

  lemma SlowCallIsSlow(s: State, w: nat, slow: set<nat>)
    requires InSlowHandler(s, w, slow)
    ensures SlowCall(s, w, slow) in slow
  {
  }

  /** A free worker sleeps only when there is nothing to do. */
  lemma PoolDone(s: State, slow: set<nat>)
    requires Inv(s) && Sound(s) && Stuck(s, slow) && |slow| < |s.pool.workers|
    ensures s.pool.tasks == [] && !s.pool.inEnqueue
    ensures forall w :: 0 <= w < |s.pool.workers| && Po.IsUnfinished(s.pool.workers[w]) ==> HeldUp(s, w, slow)
  {
    hide Stuck, PoolStuck, ChannelInv, RequestInv, JobInv, ReplyInv, PoolLink, Cl.Inv, Co.Inv;
    hide Po.CountersInv, Po.OnceInv, Po.OrderInv, Po.WakeInv, Po.ParallelInv;
    var free := SomeWorkerFree(s, slow);
    StuckPool(s, slow);
    NotificationsDone(s.pool);
    forall w | 0 <= w < |s.pool.workers| && Po.IsUnfinished(s.pool.workers[w])
      ensures HeldUp(s, w, slow) && InSlowHandler(s, w, slow)
    {
      WorkersStill(s.pool, w);
      OnlySlowRun(s, slow, w);
    }
    FreeWorkerMeansEmpty(s.pool, free);
  }

  // ------------------------------------------------------------------ the server

  lemma ServerReadsDone(s: State, slow: set<nat>)
    requires LinkStuck(s, slow) && Sound(s) && s.submitted <= |s.jobs| && !s.pool.inEnqueue
    ensures s.submitted == |s.jobs| && !CanRead(s.serverRead, s.toServer)
  {
    hide Cl.Enabled, CanRead, Read;
    assert !Enabled(s, Submit);
    assert !Enabled(s, ServerRead);
  }

  lemma ServerWritesDone(s: State, slow: set<nat>)
    requires Co.WriteInv(s.conn) && |s.replies| == |s.conn.frames| && LinkStuck(s, slow) && Sound(s)
    requires ChannelInv(s.clientRead, s.toClient, s.answers)
    ensures s.conn.writers == 0 && s.conn.inFlight == [] && s.toClient == EncodeAll(s.answers)
  {
    hide EncodeAll, ReadInv;
    if s.conn.queue != [] {
      assert s.conn.pushed[|s.conn.handed|] == s.conn.queue[0];
    }
    assert !Enabled(s, ConnStartWrite);
    var rest := Remainder(s.toClient, EncodeAll(s.answers));
    assert rest == [] || !Enabled(s, ToClient(rest));
    assert !Enabled(s, ConnWriteDone(0));
  }

  lemma {:induction false} Listing(keys: set<u32>) returns (order: seq<u32>)
    ensures Lists(order, keys)
    decreases keys
  {
    if keys == {} {
      order := [];
    } else {
      var k :| k in keys;
      var rest := Listing(keys - {k});
      order := rest + [k];
      NoDupSnoc(rest, k);
      assert forall x :: x in keys <==> x in keys - {k} || x == k;
    }
  }

  lemma ClientReadsDone(s: State, slow: set<nat>)
    requires LinkStuck(s, slow) && s.client.loop.Listening?
    ensures !CanRead(s.clientRead, s.toClient)
  {
    hide CanRead, Read, DeserializeResponse, Incoming, Lists;
    var order := Listing(s.client.pending.Keys);
    assert !Enabled(s, ClientRead(order));
  }

  // ------------------------------------------------------------------- the whole

  /** With the pool done, a connection without ordinary steps is at rest. */
  lemma LinkAtRest(s: State, slow: set<nat>)
    requires Inv(s) && Sound(s) && LinkStuck(s, slow) && s.pool.tasks == [] && !s.pool.inEnqueue
    requires forall w ::
               0 <= w < |s.pool.workers| && Po.IsUnfinished(s.pool.workers[w]) ==> HeldUp(s, w, slow)
    ensures AtRest(s, slow) && AllQueued(s.client)
  {
    hide LinkStuck, HeldUp, ChannelInv, RequestInv, JobInv, CanRead, AllQueued;
    hide Cl.SeqInv, Cl.PromiseInv, Cl.WriteInv, Cl.NothingLost, Cl.HistoryInv, Po.Inv, Co.WriteInv;
    CallersDone(s, slow);
    ClientWritesDone(s, slow);
    ServerReadsDone(s, slow);
    ServerWritesDone(s, slow);
    ClientReadsDone(s, slow);
    assert !s.conn.failed by { OpenMeansNoFailure(s.conn); }
  }

  /** Without a failure, the only place to get stuck is at rest, with every issued call
      on its way; provided some worker is free of slow handlers. */
  lemma StuckIsAtRest(s: State, slow: set<nat>)
    requires Inv(s) && Sound(s) && Stuck(s, slow) && |slow| < |s.pool.workers|
    ensures AtRest(s, slow) && AllQueued(s.client)
  {
    hide Inv, Sound, Stuck, HeldUp, LinkStuck, AtRest, AllQueued;
    StuckLinks(s, slow);
    PoolDone(s, slow);
    LinkAtRest(s, slow);
  }

  lemma OpenMeansNoFailure(c: Co.State)
    requires Co.WriteInv(c) && !c.closed
    ensures !c.failed
  {
  }

  /** So: wherever a run without a failure ends for lack of ordinary steps, every call
      whose handler is not stuck has been answered, or its handler threw something that
      is not a `runtime_error`. Slow handlers delay only their own calls. The only calls
      left out are those whose entry was overwritten. */
  lemma StuckMeansAnswered(s: State, n: nat, acts: seq<Action>, slow: set<nat>, c: nat)
    requires n >= 1 && Reachable(s, n, acts)
    requires Sound(s) && Stuck(s, slow) && |slow| < |s.pool.workers|
    requires c < |s.client.calls| && c !in slow && c !in s.client.lost
    ensures EscapedCall(s, c) || AnsweredCall(s, c)
  {
    hide Inv, AtRest, Sound, Stuck, Reachable, Init, EscapedCall, AnsweredCall, Cl.SeqOf;
    ReachableInv(s, n, acts);
    StuckIsAtRest(s, slow);
    SeqOfInv(s);
    AtRestEveryCallAnswered(s, n, acts, slow, c);
  }

  // ---------------------------------------------------- failures do not come by themselves

  /** A stream of valid frames never shows a wrong magic word. */
  lemma NoBadMagic(read: ReadState, carried: Bytes, sent: seq<Message>)
    requires ChannelInv(read, carried, sent) && CanRead(read, carried)
    ensures !Read(read, carried).reader.BadMagic?
  {
    hide ReadInv, EncodeAll, SerializeHeader, DeserializeHeader, Reassemble;
    var after := Read(read, carried);
    ChannelReads(read, carried, sent);
    if after.reader.BadMagic? {
      BadMagicMeans(after, EncodeAll(sent));
      ReassembleEncoded(sent, []);
      assert EncodeAll(sent) + [] == EncodeAll(sent);
      ReassembleNothing();
      assert sent + [] == sent;
      HeaderLeft(after, sent);
    }
  }

  /** Bytes that end a reader mean nothing more. */
  lemma BadMagicMeans(st: ReadState, all: Bytes)
    requires ReadInv(st) && st.reader.BadMagic? && st.consumed <= all
    ensures Reassemble(all) == st.delivered
  {
    hide EncodeAll, SerializeHeader, DeserializeHeader, Reassemble;
    DeliveredAll(st, all);
  }

  /** A reader that consumed a header more than what it delivered has not read a whole
      number of frames. */
  lemma HeaderLeft(st: ReadState, sent: seq<Message>)
    requires ReadInv(st) && st.reader.BadMagic? && st.consumed <= EncodeAll(sent)
    ensures st.delivered != sent
  {
    hide EncodeAll;
    assert |st.consumed| == |EncodeAll(st.delivered)| + HEADER_SIZE;
  }

  ghost predicate AllFit(s: State)
  {
    forall k :: 0 <= k < |s.jobs| && (s.jobs[k].Computed? || s.jobs[k].Sent?) ==> ResponseFits(s.jobs[k].response)
  }

  /** A response that fits its fields is read back by the client. */
  lemma IncomingDecodes(s: State)
    requires Inv(s) && AllFit(s) && CanRead(s.clientRead, s.toClient) && Incoming(s).Some?
    ensures DeserializeResponse(Incoming(s).value.body).Ok?
  {
    hide PartsInv, RequestInv, JobInv, PoolLink, DeserializeResponse, ReadInv, EncodeAll, Reassemble;
    var m := |s.clientRead.delivered|;
    var read := Read(s.clientRead, s.toClient);
    ChannelReads(s.clientRead, s.toClient, s.answers);
    DeliveredPrefix(read, s.toClient);
    ReassemblePrefix(s.toClient, s.answers);
    assert read.delivered[m] == Incoming(s).value;
    var send := s.conn.handed[m];
    assert s.answers[m] == s.replies[send];
    assert ReplyOk(s, send);
    SurvivesExactly(s.jobs[s.senders[send]].response);
  }

  lemma SoundServerRead(s: State)
    requires Inv(s) && Sound(s) && Enabled(s, ServerRead)
    ensures Sound(Apply(s, ServerRead))
  {
    hide PartsInv, RequestInv, JobInv, ReplyInv, PoolLink, ChannelInv, DeserializeHeader;
    NoBadMagic(s.serverRead, s.toServer, s.requests);
  }

  lemma SoundClientRead(s: State, order: seq<u32>)
    requires Inv(s) && Sound(s) && AllFit(s) && Enabled(s, ClientRead(order))
    ensures Sound(Apply(s, ClientRead(order)))
  {
    hide PartsInv, RequestInv, JobInv, ReplyInv, PoolLink, ChannelInv, AllFit, DeserializeHeader;
    hide DeserializeResponse;
    NoBadMagic(s.clientRead, s.toClient, s.answers);
    if Incoming(s).Some? {
      IncomingDecodes(s);
    }
  }

  lemma SoundPool(s: State, step: Po.Action<Task>)
    requires Sound(s) && OrdinaryInPool(step) && Enabled(s, PoolStep(step))
    ensures Sound(Apply(s, PoolStep(step)))
  {
    hide PoolMayStep;
  }

  lemma SoundOther(s: State, a: Action, slow: set<nat>)
    requires Sound(s) && Ordinary(s, a, slow) && Enabled(s, a)
    requires !a.ServerRead? && !a.ClientRead? && !a.PoolStep?
    ensures Sound(Apply(s, a))
  {
    hide EncodeAll, HandlersFrame, ProcessRequest, Runs, ResponseMessage, RequestMessage, CallFrames;
  }

  /** While every response fits its fields, ordinary steps lead to no failure. */
  lemma SoundStep(s: State, a: Action, slow: set<nat>)
    requires Inv(s) && Sound(s) && AllFit(s) && Ordinary(s, a, slow) && Enabled(s, a)
    ensures Sound(Apply(s, a))
  {
    hide Inv, Sound, AllFit, Enabled, Apply;
    match a
    case ServerRead => SoundServerRead(s);
    case ClientRead(order) => SoundClientRead(s, order);
    case PoolStep(step) => SoundPool(s, step);
    case _ => SoundOther(s, a, slow);
  }
}
