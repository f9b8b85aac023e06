/** What the end of reading means on either side: no call is left waiting unawares, and no
    connection stays open behind a reader that has given up. */
module Ending {
  import opened Common
  import opened Wire
  import opened Framing
  import opened Dispatch
  import Cl = ClientProtocol
  import Co = ConnectionProtocol
  import Po = PoolProtocol
  import opened EndToEnd
  import opened Matching

  /** The client's read loop and its reader end together; the server's reader ends with its
      connection, or because the pool refused a task. */
  ghost predicate LoopInv(s: State)
  {
    && (!Reading(s.clientRead) <==> s.client.loop.Stopped?)
    && (Reading(s.serverRead) ==> s.conn.reading)
    && (!s.conn.reading ==> s.conn.closed)
    && (!Reading(s.serverRead) && s.conn.reading ==> s.pool.stop)
  }

  lemma LoopOf(c: Cl.State, a: Cl.Action)
    requires Cl.Enabled(c, a)
    ensures Cl.Apply(c, a).loop.Stopped? <==> c.loop.Stopped? || a.RejectAll?
  {
  }

  lemma ReaderOf(c: Co.State, a: Co.Action)
    requires Co.Enabled(c, a)
    ensures Co.Apply(c, a).reading == (c.reading && !a.ReadFailed?)
    ensures c.closed || a.ReadFailed? ==> Co.Apply(c, a).closed
  {
  }

  lemma StopOf(p: Po.State<Task>, a: Po.Action<Task>)
    requires Po.Enabled(p, a)
    ensures p.stop || a.Refuse? ==> Po.Apply(p, a).stop
  {
  }

  /** The client side: the reader stops exactly with a rejection. */
  lemma ClientEnds(s: State, a: Action)
    requires Enabled(s, a)
    ensures ClientMove(s, a).Some? && ClientMove(s, a).value.RejectAll? <==>
              Reading(s.clientRead) && !Reading(Apply(s, a).clientRead)
    ensures !Reading(s.clientRead) ==> !Reading(Apply(s, a).clientRead)
  {
    if TouchesClientRead(a) {
      hide Cl.Apply, Cl.Enabled, ConnMove, PoolMove, DeserializeHeader, DeserializeResponse;
    } else {
      ClientReadUntouched(s, a);
      NoRejection(s, a);
      hide Enabled, Apply, ClientMove;
    }
  }

  lemma NoRejection(s: State, a: Action)
    requires Guard(s, a) && !TouchesClientRead(a)
    ensures ClientMove(s, a).Some? ==> !ClientMove(s, a).value.RejectAll?
  {
    hide Incoming, Read, DeserializeResponse, EncodeAll;
  }

  lemma LoopStepClient(s: State, a: Action)
    requires LoopInv(s) && Enabled(s, a)
    ensures !Reading(Apply(s, a).clientRead) <==> Apply(s, a).client.loop.Stopped?
  {
    ClientEnds(s, a);
    hide Cl.Apply, Cl.Enabled, ClientMove, ConnMove, PoolMove, Between, Guard, Reading;
    if ClientMove(s, a).Some? {
      LoopOf(s.client, ClientMove(s, a).value);
    }
  }

  predicate TouchesServerRead(a: Action) { a.ServerRead? || a.ServerReadError? || a.SubmitRefused? }

  lemma ServerReadUntouched(s: State, a: Action)
    requires Enabled(s, a) && !TouchesServerRead(a)
    ensures Apply(s, a).serverRead == s.serverRead
    ensures ConnMove(s, a).Some? ==> !ConnMove(s, a).value.ReadFailed?
  {
    hide ClientMove, PoolMove, Cl.Apply, Po.Apply, Co.Apply, Cl.Enabled, Po.Enabled, Co.Enabled;
    hide DeserializeResponse, Read, RequestOf, Incoming, ProcessRequest;
  }

  lemma LoopStepServer(s: State, a: Action)
    requires LoopInv(s) && Enabled(s, a)
    ensures var s' := Apply(s, a);
            && (Reading(s'.serverRead) ==> s'.conn.reading)
            && (!s'.conn.reading ==> s'.conn.closed)
            && (!Reading(s'.serverRead) && s'.conn.reading ==> s'.pool.stop)
  {
    if TouchesServerRead(a) {
      hide Cl.Apply, Cl.Enabled, ClientMove, DeserializeHeader;
    } else {
      ServerReadUntouched(s, a);
      hide Cl.Apply, Po.Apply, Co.Apply, Cl.Enabled, ClientMove, ConnMove, PoolMove, Between, Guard, Reading;
      if ConnMove(s, a).Some? {
        ReaderOf(s.conn, ConnMove(s, a).value);
      }
      if PoolMove(s, a).Some? {
        StopOf(s.pool, PoolMove(s, a).value);
      }
    }
  }

  lemma LoopStep(s: State, a: Action)
    requires LoopInv(s) && Enabled(s, a)
    ensures LoopInv(Apply(s, a))
  {
    hide Enabled, Apply, Reading;
    LoopStepClient(s, a);
    LoopStepServer(s, a);
  }

  lemma {:induction false} RunKeepsLoop(s: State, acts: seq<Action>)
    requires LoopInv(s) && RunOk(s, acts)
    ensures LoopInv(Exec(s, acts))
    decreases |acts|
  {
    hide LoopInv, Enabled, Apply;
    if acts != [] {
      LoopStep(s, acts[0]);
      RunKeepsLoop(Apply(s, acts[0]), acts[1..]);
    }
  }

  lemma InitLoop(n: nat)
    ensures LoopInv(Init(n))
  {
  }

  /** In every run: the client's reader has ended if and only if its waiting calls have been
      rejected; while the server reads, its connection has not lost its reader; once it has,
      it is closed; and a server that stopped reading otherwise did so because the pool was
      stopping. */
  lemma ReadersEndTogether(s: State, n: nat, acts: seq<Action>)
    requires Reachable(s, n, acts)
    ensures !Reading(s.clientRead) <==> s.client.loop.Stopped?
    ensures !Reading(s.serverRead) ==> s.conn.closed || s.pool.stop
    ensures Reading(s.serverRead) ==> s.conn.reading
  {
    hide LoopInv, Init, Enabled, Apply;
    InitLoop(n);
    RunKeepsLoop(Init(n), acts);
    assert LoopInv(s);
    LoopMeans(s);
  }

  lemma LoopMeans(s: State)
    requires LoopInv(s)
    ensures !Reading(s.clientRead) <==> s.client.loop.Stopped?
    ensures !Reading(s.serverRead) ==> s.conn.closed || s.pool.stop
    ensures Reading(s.serverRead) ==> s.conn.reading
  {
  }

  /** Why the client's reader stops: the error it met, a wrong magic word, or a response that
      does not decode. */
  ghost function Why(s: State, a: Action): Bytes
    requires Enabled(s, a)
  {
    if a.ClientReadError? then a.reason
    else if Apply(s, a).clientRead.reader.BadMagic? then Ascii("bad magic")
    else Ascii("bad response")
  }

  lemma ReasonIs(s: State, a: Action)
    requires Enabled(s, a) && ClientMove(s, a).Some? && ClientMove(s, a).value.RejectAll?
    ensures ClientMove(s, a).value.reason == Why(s, a)
  {
    hide Cl.Apply, Cl.Enabled, ConnMove, PoolMove, DeserializeHeader, DeserializeResponse;
    if !TouchesClientRead(a) {
      NoRejection(s, a);
    }
  }

  /** The step that ends the client's reading tells every call that waits: its future holds
      code -10, the reason and no result. Afterwards nobody waits, and every call that was
      registered is settled or was overwritten. */
  lemma EndOfReadingTellsAll(s: State, n: nat, acts: seq<Action>, a: Action)
    requires n >= 1 && Reachable(s, n, acts) && Enabled(s, a)
    requires Reading(s.clientRead) && !Reading(Apply(s, a).clientRead)
    ensures var c' := Apply(s, a).client;
            && c'.pending == map[] && s.client.settled <= c'.settled
            && (forall c: nat :: Cl.IsPending(s.client, c) ==>
                  Cl.Settlement(c, RpcResponse(-10, Why(s, a), []), Cl.Rejected) in c'.settled)
            && (forall c: nat :: Cl.IsRegistered(s.client, c) ==> Cl.IsSettled(c', c) || c in c'.lost)
  {
    ClientEnds(s, a);
    ReasonIs(s, a);
    hide Inv, Cl.Apply, Cl.Enabled, Between, ClientMove, ConnMove, PoolMove, Guard, Reading, Cl.IsRegistered;
    hide Cl.IsPending, Why;
    ReachableInv(s, n, acts);
    SeqOfInv(s);
    var move := ClientMove(s, a).value;
    Cl.RejectionTellsAll(s.client, move.order, move.reason);
    Step(s, a);
    SeqOfInv(Apply(s, a));
    forall c: nat | Cl.IsRegistered(s.client, c)
      ensures Cl.IsSettled(Apply(s, a).client, c) || c in Apply(s, a).client.lost
    {
      RegisteredBy(s.client, move, c);
      NobodyWaits(Apply(s, a).client, c);
    }
  }

  lemma NobodyWaits(client: Cl.State, c: nat)
    requires Cl.Inv(client) && client.pending == map[] && client.loop.Stopped? && Cl.IsRegistered(client, c)
    ensures Cl.IsSettled(client, c) || c in client.lost
  {
    hide Cl.SeqInv, Cl.WriteInv, Cl.NothingLost, Cl.HistoryInv;
  }

  /** A failed write tells the call whose frame it was, if it still waits under its number. */
  lemma FailedWriteTellsOwner(s: State, n: nat, acts: seq<Action>, i: nat, reason: Bytes)
    requires n >= 1 && Reachable(s, n, acts) && Enabled(s, ClientWriteFailed(i, reason))
    ensures var c, c' := s.client, Apply(s, ClientWriteFailed(i, reason)).client;
            && i < |c.inFlight|
            && (Cl.IsPending(c, c.inFlight[i]) ==>
                  Cl.Settlement(c.inFlight[i], RpcResponse(-10, reason, []), Cl.WriteError) in c'.settled)
            && !Cl.IsPending(c', c.inFlight[i])
  {
    ReachableInv(s, n, acts);
    FailedMove(s, i, reason);
    hide Inv, Apply, Enabled, Cl.SeqOf, Cl.Inv, Cl.IsPending, Cl.Apply;
    SeqOfInv(s);
    Cl.FailedWriteTells(s.client, i, reason);
    PendingUnder(s.client, s.client.inFlight[i]);
    Step(s, ClientWriteFailed(i, reason));
    SeqOfInv(Apply(s, ClientWriteFailed(i, reason)));
    PendingUnder(Apply(s, ClientWriteFailed(i, reason)).client, s.client.inFlight[i]);
  }

  lemma FailedMove(s: State, i: nat, reason: Bytes)
    requires Enabled(s, ClientWriteFailed(i, reason))
    ensures Cl.Enabled(s.client, Cl.WriteFailed(i, reason)) && i < |s.client.inFlight|
    ensures Apply(s, ClientWriteFailed(i, reason)).client == Cl.Apply(s.client, Cl.WriteFailed(i, reason))
  {
    hide Cl.Apply;
  }

  lemma PendingUnder(c: Cl.State, x: nat)
    requires Cl.Inv(c)
    ensures Cl.IsPending(c, x) ==> Cl.SeqOf(x) in c.pending && c.pending[Cl.SeqOf(x)] == x
  {
    hide Cl.SeqOf, Cl.WriteInv, Cl.PromiseInv, Cl.NothingLost, Cl.HistoryInv;
  }

  lemma FailedStays(c: Co.State, a: Co.Action)
    requires Co.Inv(c) && Co.Enabled(c, a)
    ensures a.WriteFailed? ==> Co.Apply(c, a).failed && Co.Apply(c, a).closed
    ensures c.failed || a.WriteFailed? ==> Co.Apply(c, a).failed && Co.Apply(c, a).handed == c.handed
  {
  }

  predicate Broken(s: State) { s.toClientBroken && s.conn.failed }

  lemma BrokenStep(s: State, a: Action)
    requires Inv(s) && Enabled(s, a) && (Broken(s) || a.ConnWriteFailed?)
    ensures var s' := Apply(s, a);
            Broken(s') && s'.conn.handed == s.conn.handed && s'.toClient == s.toClient && s'.answers == s.answers
  {
    hide PartsInv, ChannelInv, RequestInv, JobInv, ReplyInv, PoolLink;
    BrokenConn(s, a);
    BrokenChannel(s, a);
    BrokenAnswers(s, a);
  }

  lemma BrokenConn(s: State, a: Action)
    requires PartsInv(s) && Enabled(s, a) && (s.conn.failed || a.ConnWriteFailed?)
    ensures Apply(s, a).conn.failed && Apply(s, a).conn.handed == s.conn.handed
  {
    FailureMoves(s, a);
    hide Cl.Inv, Po.Inv, Co.Inv, Co.Apply, Co.Enabled, ClientMove, ConnMove, PoolMove, Between, Guard;
    if ConnMove(s, a).Some? {
      FailedStays(s.conn, ConnMove(s, a).value);
    }
  }

  lemma FailureMoves(s: State, a: Action)
    requires Guard(s, a)
    ensures a.ConnWriteFailed? ==> ConnMove(s, a) == Some(Co.WriteFailed(a.i))
  {
    hide Incoming, Read, EncodeAll;
  }

  lemma BrokenChannel(s: State, a: Action)
    requires Enabled(s, a) && (s.toClientBroken || a.ConnWriteFailed?)
    ensures Apply(s, a).toClientBroken && Apply(s, a).toClient == s.toClient
  {
    hide ClientMove, ConnMove, PoolMove, Cl.Apply, Po.Apply, Co.Apply, Cl.Enabled, Po.Enabled, Co.Enabled;
    hide DeserializeResponse, Read, RequestOf, Incoming, ProcessRequest, EncodeAll;
  }

  lemma BrokenAnswers(s: State, a: Action)
    requires PartsInv(s) && ReplyInv(s) && Enabled(s, a) && (s.conn.failed || a.ConnWriteFailed?)
    ensures Apply(s, a).answers == s.answers
  {
    BrokenConn(s, a);
    if a.ConnStartWrite? {
      hide PartsInv, ReplyOk;
      ConnGrows(s.conn, Co.StartWrite);
    } else {
      AnswersUntouched(s, a);
    }
  }

  lemma AnswersUntouched(s: State, a: Action)
    requires Enabled(s, a) && !a.ConnStartWrite?
    ensures Apply(s, a).answers == s.answers
  {
    hide ClientMove, ConnMove, PoolMove, Cl.Apply, Po.Apply, Co.Apply, Cl.Enabled, Po.Enabled, Co.Enabled;
    hide DeserializeResponse, Read, RequestOf, Incoming, ProcessRequest, EncodeAll;
  }

  /** After a failed write of the server, nothing more ever reaches the client, and no further
      frame is handed to the socket. */
  lemma {:induction false} FailedSendIsFinal(s: State, acts: seq<Action>)
    requires Inv(s) && Broken(s) && RunOk(s, acts)
    ensures var e := Exec(s, acts);
            Broken(e) && e.toClient == s.toClient && e.answers == s.answers && e.conn.handed == s.conn.handed
    decreases |acts|
  {
    hide Inv, Enabled, Apply, Broken;
    if acts != [] {
      BrokenStep(s, acts[0]);
      Step(s, acts[0]);
      FailedSendIsFinal(Apply(s, acts[0]), acts[1..]);
    }
  }

  /** And the failing write is where that begins. */
  lemma FailedSendBreaks(s: State, i: nat)
    requires Inv(s) && Enabled(s, ConnWriteFailed(i))
    ensures Broken(Apply(s, ConnWriteFailed(i))) && Apply(s, ConnWriteFailed(i)).conn.closed
  {
    hide PartsInv, ChannelInv, RequestInv, JobInv, ReplyInv, PoolLink;
    BrokenStep(s, ConnWriteFailed(i));
    FailedCloses(s, i);
  }

  lemma FailedCloses(s: State, i: nat)
    requires PartsInv(s) && Enabled(s, ConnWriteFailed(i))
    ensures Apply(s, ConnWriteFailed(i)).conn.closed
  {
    hide Cl.Inv, Po.Inv, Co.Inv, Co.Apply;
    FailedStays(s.conn, Co.WriteFailed(i));
  }

  lemma DeadReaderStep(s: State, a: Action)
    requires Enabled(s, a) && (!Reading(s.serverRead) || a.SubmitRefused?)
    ensures var s' := Apply(s, a);
            !Reading(s'.serverRead) && |s'.jobs| == |s.jobs| && s'.serverRead.delivered == s.serverRead.delivered
  {
    if TouchesJobs(a) {
      hide Cl.Apply, Po.Apply, Co.Apply, ClientMove, ConnMove, PoolMove, ProcessRequest, HandlersFrame, Runs;
    } else {
      JobsUntouched(s, a);
      DeadReader(s, a);
      hide Enabled, Apply;
    }
  }

  lemma DeadReader(s: State, a: Action)
    requires Enabled(s, a) && !TouchesJobs(a) && (!Reading(s.serverRead) || a.SubmitRefused?)
    ensures !Reading(Apply(s, a).serverRead)
  {
    hide ClientMove, ConnMove, PoolMove, Cl.Apply, Po.Apply, Co.Apply, Cl.Enabled, Po.Enabled, Co.Enabled;
    hide DeserializeResponse, Read, RequestOf, Incoming, ProcessRequest, EncodeAll;
  }

  /** Once the server's reader has ended, and a refused task ends it, no further request of
      this client is ever delivered. */
  lemma {:induction false} DeadReaderIsFinal(s: State, acts: seq<Action>)
    requires RunOk(s, acts) && (!Reading(s.serverRead) || (acts != [] && acts[0].SubmitRefused?))
    ensures |Exec(s, acts).jobs| == |s.jobs| && Exec(s, acts).serverRead.delivered == s.serverRead.delivered
    decreases |acts|
  {
    hide Enabled, Apply, Reading;
    if acts != [] {
      DeadReaderStep(s, acts[0]);
      DeadReaderIsFinal(Apply(s, acts[0]), acts[1..]);
    }
  }

  // ------------------------------------------------------- one thing at a time

  ghost predicate HasPopped(s: State, k: nat)
  {
    exists t :: 0 <= t < |s.pool.taken| && s.pool.taken[t] == Mine(k)
  }

  /** Each message is given to the pool before the next is read; a promise is set before the
      next response is read; and a request is processed only after a worker has taken its
      task from the queue. */
  ghost predicate TurnInv(s: State)
  {
    && s.submitted <= |s.jobs| <= s.submitted + 1
    && (s.serverRead.reader.AwaitBody? ==> s.submitted == |s.jobs|)
    && (s.client.loop.Holding? ==> s.clientRead.reader.AwaitHeader?)
    && (forall k :: 0 <= k < |s.jobs| && !s.jobs[k].Waiting? ==> HasPopped(s, k))
  }

  lemma TakenGrows(p: Po.State<Task>, a: Po.Action<Task>)
    requires Po.Enabled(p, a)
    ensures p.taken <= Po.Apply(p, a).taken
  {
  }

  lemma PoppedStays(s: State, a: Action, k: nat)
    requires Enabled(s, a) && HasPopped(s, k)
    ensures HasPopped(Apply(s, a), k)
  {
    hide Po.Apply, Po.Enabled, ClientMove, ConnMove, PoolMove, Between, Guard;
    if PoolMove(s, a).Some? {
      TakenGrows(s.pool, PoolMove(s, a).value);
    }
  }

  /** A task that a worker runs has been taken from the queue. */
  lemma RunsPopped(s: State, k: nat)
    requires Inv(s) && Runs(s, k)
    ensures HasPopped(s, k)
  {
    hide ChannelInv, RequestInv, JobInv, ReplyInv, PoolLink, Cl.Inv, Co.Inv, Po.CountersInv, Po.WakeInv;
    hide Po.ParallelInv;
    var w: nat :| WorkerRuns(s, w, k);
    assert s.pool.taken[s.pool.workers[w].task] == s.pool.accepted[s.pool.workers[w].task];
    assert s.pool.taken[s.pool.workers[w].task] == Mine(k);
  }

  lemma TurnJobs(s: State, a: Action)
    requires Inv(s) && TurnInv(s) && Enabled(s, a)
    ensures var jobs := Apply(s, a).jobs;
            forall k :: 0 <= k < |jobs| && !jobs[k].Waiting? ==> HasPopped(Apply(s, a), k)
  {
    var s' := Apply(s, a);
    forall k | 0 <= k < |s'.jobs| && !s'.jobs[k].Waiting? ensures HasPopped(s', k) {
      ProcessedByWorker(s, a, k);
      hide Inv, Enabled, Apply;
      if !(k < |s.jobs| && !s.jobs[k].Waiting?) {
        RunsPopped(s, k);
      }
      PoppedStays(s, a, k);
    }
  }

  lemma ProcessedByWorker(s: State, a: Action, k: nat)
    requires Enabled(s, a) && k < |Apply(s, a).jobs| && !Apply(s, a).jobs[k].Waiting?
    ensures (k < |s.jobs| && !s.jobs[k].Waiting?) || Runs(s, k)
  {
    if TouchesJobs(a) {
      hide Cl.Apply, Po.Apply, Co.Apply, ClientMove, ConnMove, PoolMove, Read, ProcessRequest, HandlersFrame, Runs;
    } else {
      JobsUntouched(s, a);
      hide Enabled, Apply;
    }
  }

  lemma TurnServer(s: State, a: Action)
    requires TurnInv(s) && Enabled(s, a)
    ensures var s' := Apply(s, a);
            && s'.submitted <= |s'.jobs| <= s'.submitted + 1
            && (s'.serverRead.reader.AwaitBody? ==> s'.submitted == |s'.jobs|)
  {
    if TouchesJobs(a) || a.Submit? {
      hide Cl.Apply, Po.Apply, Co.Apply, ClientMove, ConnMove, PoolMove, ProcessRequest, HandlersFrame, Runs;
      hide DeserializeHeader;
    } else {
      JobsUntouched(s, a);
      ServerQuiet(s, a);
      hide Enabled, Apply;
    }
  }

  lemma ServerQuiet(s: State, a: Action)
    requires Enabled(s, a) && !TouchesJobs(a) && !a.Submit?
    ensures Apply(s, a).submitted == s.submitted
    ensures Apply(s, a).serverRead.reader.AwaitBody? ==> s.serverRead.reader.AwaitBody?
  {
    hide ClientMove, ConnMove, PoolMove, Cl.Apply, Po.Apply, Co.Apply, Cl.Enabled, Po.Enabled, Co.Enabled;
    hide DeserializeResponse, Read, RequestOf, Incoming, ProcessRequest, EncodeAll;
  }

  lemma TurnClient(s: State, a: Action)
    requires TurnInv(s) && Enabled(s, a)
    ensures Apply(s, a).client.loop.Holding? ==> Apply(s, a).clientRead.reader.AwaitHeader?
  {
    if TouchesClientRead(a) {
      ReadEndsHeld(s, a);
    } else {
      ClientReadUntouched(s, a);
      NoMatch(s, a);
      hide Cl.Apply, Cl.Enabled, ClientMove, ConnMove, PoolMove, Between, Guard;
      if ClientMove(s, a).Some? {
        SettledGrows(s.client, ClientMove(s, a).value);
      }
    }
  }

  lemma ReadEndsHeld(s: State, a: Action)
    requires TurnInv(s) && Enabled(s, a) && TouchesClientRead(a)
    ensures Apply(s, a).client.loop.Holding? ==> Apply(s, a).clientRead.reader.AwaitHeader?
  {
    hide Cl.Apply, ConnMove, PoolMove, DeserializeHeader, DeserializeResponse, HasPopped;
    if ClientMove(s, a).Some? {
      SettledGrows(s.client, ClientMove(s, a).value);
    }
  }

  lemma NoMatch(s: State, a: Action)
    requires Guard(s, a) && !TouchesClientRead(a)
    ensures ClientMove(s, a).Some? ==> !ClientMove(s, a).value.Match?
  {
    hide Incoming, Read, DeserializeResponse, EncodeAll;
  }

  lemma TurnStep(s: State, a: Action)
    requires Inv(s) && TurnInv(s) && Enabled(s, a)
    ensures TurnInv(Apply(s, a))
  {
    hide Inv, Enabled, Apply, HasPopped;
    TurnJobs(s, a);
    TurnServer(s, a);
    TurnClient(s, a);
  }

  lemma {:induction false} RunKeepsTurn(s: State, acts: seq<Action>)
    requires Inv(s) && TurnInv(s) && RunOk(s, acts)
    ensures TurnInv(Exec(s, acts))
    decreases |acts|
  {
    hide Inv, TurnInv, Enabled, Apply;
    if acts != [] {
      TurnStep(s, acts[0]);
      Step(s, acts[0]);
      RunKeepsTurn(Apply(s, acts[0]), acts[1..]);
    }
  }

  lemma InitTurn(n: nat)
    ensures TurnInv(Init(n))
  {
  }

  /** In every run: at most one delivered message has not been given to the pool, and no body
      is read before it has; while the read handler holds a response, nothing further has
      been read; and every request that has been processed was taken from the queue by a
      worker. */
  lemma OneThingAtATime(s: State, n: nat, acts: seq<Action>)
    requires n >= 1 && Reachable(s, n, acts)
    ensures s.submitted <= |s.jobs| <= s.submitted + 1
    ensures s.serverRead.reader.AwaitBody? ==> s.submitted == |s.jobs|
    ensures s.client.loop.Holding? ==> s.clientRead.reader.AwaitHeader?
    ensures forall k :: 0 <= k < |s.jobs| && !s.jobs[k].Waiting? ==> HasPopped(s, k)
  {
    hide Inv, Init, Enabled, Apply, HasPopped;
    InitInv(n);
    InitTurn(n);
    RunKeepsTurn(Init(n), acts);
  }

  // ------------------------------------------- finished writes, unfinished tasks

  /** Where no write is outstanding and none has failed, the channel has taken every byte
      handed over. */
  ghost predicate CarryInv(s: State)
  {
    && (s.client.inFlight == [] && !s.toServerBroken ==> s.toServer == EncodeAll(s.requests))
    && (s.conn.inFlight == [] && !s.toClientBroken ==> s.toClient == EncodeAll(s.answers))
  }

  lemma ClientWrites(c: Cl.State, a: Cl.Action)
    requires Cl.Enabled(c, a)
    ensures var c' := Cl.Apply(c, a);
            && (a.StartWrite? && c.queue != [] ==> c'.inFlight != [])
            && (!a.StartWrite? && !a.WriteDone? && !a.WriteFailed? ==> c'.inFlight == c.inFlight)
            && (a.StartWrite? && c.queue == [] ==> c'.inFlight == c.inFlight)
  {
  }

  lemma ConnWrites(c: Co.State, a: Co.Action)
    requires Co.Enabled(c, a)
    ensures var c' := Co.Apply(c, a);
            && (a.StartWrite? && c.queue != [] ==> c'.inFlight != [])
            && (!a.StartWrite? && !a.WriteDone? && !a.WriteFailed? ==> c'.inFlight == c.inFlight)
            && (a.StartWrite? && c.queue == [] ==> c'.inFlight == c.inFlight)
  {
  }

  lemma ToServerMoves(s: State, a: Action)
    requires Enabled(s, a) && !a.ToServer?
    ensures var s' := Apply(s, a);
            && s'.toServer == s.toServer
            && (!(a.ClientStartWrite? && s.client.queue != []) ==> s'.requests == s.requests)
            && (s.toServerBroken || a.ClientWriteFailed? ==> s'.toServerBroken)
  {
    hide ClientMove, ConnMove, PoolMove, Cl.Apply, Po.Apply, Co.Apply, Cl.Enabled, Po.Enabled, Co.Enabled;
    hide DeserializeResponse, Read, RequestOf, Incoming, ProcessRequest, EncodeAll, ReadInv;
  }

  lemma ToClientMoves(s: State, a: Action)
    requires Enabled(s, a) && !a.ToClient?
    ensures var s' := Apply(s, a);
            && s'.toClient == s.toClient
            && (!(a.ConnStartWrite? && s.conn.queue != []) ==> s'.answers == s.answers)
            && (s.toClientBroken || a.ConnWriteFailed? ==> s'.toClientBroken)
  {
    hide ClientMove, ConnMove, PoolMove, Cl.Apply, Po.Apply, Co.Apply, Cl.Enabled, Po.Enabled, Co.Enabled;
    hide DeserializeResponse, Read, RequestOf, Incoming, ProcessRequest, EncodeAll, ReadInv;
  }

  /** Which moves of the parts are writes. */
  lemma WriteMoves(s: State, a: Action)
    requires Guard(s, a)
    ensures ClientMove(s, a).Some? && ClientMove(s, a).value.StartWrite? <==> a.ClientStartWrite?
    ensures ClientMove(s, a).Some? && ClientMove(s, a).value.WriteDone? <==> a.ClientWriteDone?
    ensures ClientMove(s, a).Some? && ClientMove(s, a).value.WriteFailed? <==> a.ClientWriteFailed?
    ensures ConnMove(s, a).Some? && ConnMove(s, a).value.StartWrite? <==> a.ConnStartWrite?
    ensures ConnMove(s, a).Some? && ConnMove(s, a).value.WriteDone? <==> a.ConnWriteDone?
    ensures ConnMove(s, a).Some? && ConnMove(s, a).value.WriteFailed? <==> a.ConnWriteFailed?
    ensures a.ClientWriteDone? ==> s.toServer == EncodeAll(s.requests)
    ensures a.ConnWriteDone? ==> s.toClient == EncodeAll(s.answers)
  {
    hide Incoming, Read, DeserializeResponse, EncodeAll;
  }

  lemma CarryToServer(s: State, a: Action)
    requires Inv(s) && CarryInv(s) && Enabled(s, a)
    ensures var s' := Apply(s, a);
            s'.client.inFlight == [] && !s'.toServerBroken ==> s'.toServer == EncodeAll(s'.requests)
  {
    var s' := Apply(s, a);
    if s'.client.inFlight == [] && !s'.toServerBroken && !a.ToServer? {
      ToServerMoves(s, a);
      WriteMoves(s, a);
      hide Inv, Cl.Apply, Cl.Enabled, EncodeAll, Between, Guard, ClientMove, ConnMove, PoolMove;
      if ClientMove(s, a).Some? {
        ClientWrites(s.client, ClientMove(s, a).value);
      }
    } else if a.ToServer? {
      CarriedMore(s, a);
    }
  }

  lemma CarriedMore(s: State, a: Action)
    requires Enabled(s, a) && (a.ToServer? || a.ToClient?)
    ensures var s' := Apply(s, a);
            && s'.client == s.client && s'.conn == s.conn && s'.requests == s.requests && s'.answers == s.answers
            && s'.toServerBroken == s.toServerBroken && s'.toClientBroken == s.toClientBroken
            && s.toServer <= s'.toServer && s.toClient <= s'.toClient
            && (a.ToServer? ==> s'.toServer <= EncodeAll(s.requests) && s'.toClient == s.toClient)
            && (a.ToClient? ==> s'.toClient <= EncodeAll(s.answers) && s'.toServer == s.toServer)
  {
    hide EncodeAll;
  }

  lemma CarryToClient(s: State, a: Action)
    requires Inv(s) && CarryInv(s) && Enabled(s, a)
    ensures var s' := Apply(s, a);
            s'.conn.inFlight == [] && !s'.toClientBroken ==> s'.toClient == EncodeAll(s'.answers)
  {
    var s' := Apply(s, a);
    if s'.conn.inFlight == [] && !s'.toClientBroken && !a.ToClient? {
      ToClientMoves(s, a);
      WriteMoves(s, a);
      hide Inv, Co.Apply, Co.Enabled, EncodeAll, Between, Guard, ClientMove, ConnMove, PoolMove;
      if ConnMove(s, a).Some? {
        ConnWrites(s.conn, ConnMove(s, a).value);
      }
    } else if a.ToClient? {
      CarriedMore(s, a);
    }
  }

  /** A response that has been computed and not yet sent is in the hands of the worker that
      runs its task. */
  ghost predicate HandsInv(s: State)
  {
    forall k :: 0 <= k < |s.jobs| && s.jobs[k].Computed? ==> Runs(s, k)
  }

  lemma WorkerStays(p: Po.State<Task>, a: Po.Action<Task>, w: nat)
    requires Po.Enabled(p, a) && w < |p.workers| && p.workers[w].Running? && a != Po.EndBody(w)
    ensures var p' := Po.Apply(p, a);
            w < |p'.workers| && p'.workers[w] == p.workers[w] && p.accepted <= p'.accepted
  {
  }

  lemma RunsStays(s: State, a: Action, k: nat)
    requires Enabled(s, a) && Runs(s, k) && k < |s.jobs| && !JobDone(s, k)
    ensures Runs(Apply(s, a), k)
  {
    hide Po.Apply, Po.Enabled, ClientMove, ConnMove, Between, JobDone;
    var w: nat :| WorkerRuns(s, w, k);
    if PoolMove(s, a).Some? {
      BodyGoesOn(s, a, w, k);
      WorkerStays(s.pool, PoolMove(s, a).value, w);
    }
    hide Guard;
    assert WorkerRuns(Apply(s, a), w, k);
  }

  lemma BodyGoesOn(s: State, a: Action, w: nat, k: nat)
    requires Guard(s, a) && PoolMove(s, a).Some? && WorkerRuns(s, w, k) && !JobDone(s, k)
    ensures PoolMove(s, a).value != Po.EndBody(w)
  {
    hide JobDone, EncodeAll, Incoming, Read;
  }

  lemma HandsStep(s: State, a: Action)
    requires HandsInv(s) && Enabled(s, a)
    ensures HandsInv(Apply(s, a))
  {
    hide Runs;
    var s' := Apply(s, a);
    forall k | 0 <= k < |s'.jobs| && s'.jobs[k].Computed? ensures Runs(s', k) {
      ProcessedByWorker(s, a, k);
      ComputedBefore(s, a, k);
      hide Enabled, Apply;
      RunsStays(s, a, k);
    }
  }

  lemma ComputedBefore(s: State, a: Action, k: nat)
    requires Enabled(s, a) && k < |Apply(s, a).jobs| && Apply(s, a).jobs[k].Computed?
    ensures k < |s.jobs| && !JobDone(s, k) && (s.jobs[k].Waiting? || s.jobs[k].Computed?)
  {
    if TouchesJobs(a) {
      hide Cl.Apply, Po.Apply, Co.Apply, ClientMove, ConnMove, PoolMove, Read, ProcessRequest, HandlersFrame, Runs;
    } else {
      JobsUntouched(s, a);
      hide Enabled, Apply;
    }
  }

  lemma {:induction false} RunKeepsHands(s: State, acts: seq<Action>)
    requires Inv(s) && CarryInv(s) && HandsInv(s) && RunOk(s, acts)
    ensures CarryInv(Exec(s, acts)) && HandsInv(Exec(s, acts))
    decreases |acts|
  {
    hide Inv, HandsInv, Enabled, Apply, EncodeAll;
    if acts != [] {
      CarryToServer(s, acts[0]);
      CarryToClient(s, acts[0]);
      HandsStep(s, acts[0]);
      Step(s, acts[0]);
      RunKeepsHands(Apply(s, acts[0]), acts[1..]);
    }
  }

  /** In every run: a side without an outstanding or a failed write has had all its bytes
      carried, and a computed response is sent by the worker that computed it, before its
      task's body ends. */
  lemma NothingLeftBehind(s: State, n: nat, acts: seq<Action>)
    requires n >= 1 && Reachable(s, n, acts)
    ensures s.client.inFlight == [] && !s.toServerBroken ==> s.toServer == EncodeAll(s.requests)
    ensures s.conn.inFlight == [] && !s.toClientBroken ==> s.toClient == EncodeAll(s.answers)
    ensures forall k :: 0 <= k < |s.jobs| && s.jobs[k].Computed? ==> Runs(s, k)
  {
    InitHands(n);
    hide Inv, Init, Enabled, Apply, EncodeAll, Runs;
    InitInv(n);
    RunKeepsHands(Init(n), acts);
  }

  lemma InitHands(n: nat)
    ensures CarryInv(Init(n)) && HandsInv(Init(n))
  {
  }

  // ---------------------------------------------------------- what may go wrong

  lemma ClientIsFree(s: State, order: seq<u32>, reason: Bytes)
    requires Cl.Inv(s.client) && Lists(order, s.client.pending.Keys)
    ensures s.client.inFlight != [] ==> Enabled(s, ClientWriteFailed(0, reason))
    ensures Reading(s.clientRead) && s.client.loop.Listening? ==> Enabled(s, ClientReadError(order, reason))
  {
    hide Cl.Inv, EncodeAll, Lists, Reading;
    Cl.OutsideIsFree(s.client, RpcRequest([], [], 0, []), 0, RpcResponse(0, [], []), order, reason);
    hide Cl.Enabled;
  }

  lemma ServerIsFree(s: State)
    ensures s.conn.inFlight != [] ==> Enabled(s, ConnWriteFailed(0))
    ensures Reading(s.serverRead) && s.conn.reading ==> Enabled(s, ServerReadError)
  {
    hide EncodeAll, Reading;
    Co.OutsideIsFree(s.conn, []);
    hide Co.Enabled;
  }

  lemma ChannelsAreFree(s: State, b: Bytes)
    ensures !s.toServerBroken && s.toServer + b <= EncodeAll(s.requests) ==> Enabled(s, ToServer(b))
    ensures !s.toClientBroken && s.toClient + b <= EncodeAll(s.answers) ==> Enabled(s, ToClient(b))
  {
    hide EncodeAll;
  }

  lemma PoolIsFree(s: State)
    ensures s.submitted < |s.jobs| && s.pool.stop && !s.pool.inEnqueue ==> Enabled(s, SubmitRefused)
    ensures s.submitted < |s.jobs| && !s.pool.stop && !s.pool.inEnqueue ==> Enabled(s, Submit)
  {
    Po.OutsideIsFree(s.pool, Mine(s.submitted), 0);
    hide Po.Enabled;
  }

  /** Nothing that the environment may do is ruled out: a read may fail while one is
      outstanding, a write may fail while one is outstanding, bytes may arrive in pieces of
      any size, and a stopped pool refuses the next message. */
  lemma EnvironmentIsFree(s: State, order: seq<u32>, reason: Bytes, b: Bytes)
    requires Inv(s) && Lists(order, s.client.pending.Keys)
    ensures s.client.inFlight != [] ==> Enabled(s, ClientWriteFailed(0, reason))
    ensures s.conn.inFlight != [] ==> Enabled(s, ConnWriteFailed(0))
    ensures Reading(s.clientRead) && s.client.loop.Listening? ==> Enabled(s, ClientReadError(order, reason))
    ensures Reading(s.serverRead) && s.conn.reading ==> Enabled(s, ServerReadError)
    ensures !s.toServerBroken && s.toServer + b <= EncodeAll(s.requests) ==> Enabled(s, ToServer(b))
    ensures !s.toClientBroken && s.toClient + b <= EncodeAll(s.answers) ==> Enabled(s, ToClient(b))
    ensures s.submitted < |s.jobs| && s.pool.stop && !s.pool.inEnqueue ==> Enabled(s, SubmitRefused)
    ensures s.submitted < |s.jobs| && !s.pool.stop && !s.pool.inEnqueue ==> Enabled(s, Submit)
  {
    hide Inv, Cl.Inv, Enabled, EncodeAll, Lists, Reading;
    SeqOfInv(s);
    ClientIsFree(s, order, reason);
    ServerIsFree(s);
    ChannelsAreFree(s, b);
    PoolIsFree(s);
  }
}
