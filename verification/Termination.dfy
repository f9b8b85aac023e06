/** The composed system comes to rest: ordinary steps use up a measure, whatever their
    order, so every schedule of them is finite and its length is bounded beforehand. */
module Termination {
  import opened Common
  import opened Wire
  import opened Framing
  import opened Dispatch
  import Cl = ClientProtocol
  import Co = ConnectionProtocol
  import Po = PoolProtocol
  import opened EndToEnd
  import opened Matching
  import opened Quiescence
  import opened Progress

  // --------------------------------------------------------------- the measure

  /** No frame is longer. */
  const FRAME: nat := 0x1_0000_0014

  /** Per byte: one step to carry it and three to read it. */
  const BYTE: nat := 4

  const SERVER_ITEM: nat := BYTE * FRAME + 2
  const UNSUBMITTED: nat := 10
  const UNDELIVERED: nat := UNSUBMITTED + SERVER_ITEM + 5
  const CLIENT_ITEM: nat := BYTE * FRAME + UNDELIVERED + 2

  function PhaseWork(p: Cl.Phase): nat
  {
    match p
    case Allocated => CLIENT_ITEM + 3
    case Registered => CLIENT_ITEM + 2
    case Queued => 0
  }

  function ClientWork(c: Cl.State): nat
  {
    Sum(c.phase, PhaseWork) + CLIENT_ITEM * |c.queue| + c.writers + 2 * |c.inFlight|
    + (if c.loop.Holding? then 1 else 0)
  }

  /** What is left to carry and to read of the frames handed over. */
  function ChannelWork(read: ReadState, carried: Bytes, sent: seq<Message>): int
  {
    (|EncodeAll(sent)| - |carried|) + 3 * (|EncodeAll(sent)| - |read.consumed|)
    + (if read.reader.AwaitBody? then 2 else 0)
  }

  function JobWork(j: Job): nat
  {
    match j
    case Waiting => SERVER_ITEM + 4
    case Computed(_, _) => SERVER_ITEM + 3
    case _ => 0
  }

  function SendWork(p: Co.SendPhase): nat { if p.Checked? then SERVER_ITEM + 2 else 0 }

  function ConnWork(c: Co.State): nat
  {
    Sum(c.phase, SendWork) + SERVER_ITEM * |c.queue| + c.writers + 2 * |c.inFlight|
  }

  function WorkerWork(w: Po.Worker): nat
  {
    match w
    case Asleep => 0
    case Exited => 0
    case Checking => 1
    case Counted(_) => 2
    case Retired(_) => 3
    case Ran(_) => 4
    case Running(_) => 5
    case Popped(_) => 6
  }

  function PoolWork<T>(p: Po.State<T>): nat
  {
    6 * |p.tasks| + Sum(p.workers, WorkerWork) + 2 * p.owed + (if p.inEnqueue then 3 else 0)
  }

  /** How many ordinary steps are left at most. */
  function StepsLeft(s: State): int
  {
    ClientWork(s.client)
    + ChannelWork(s.serverRead, s.toServer, s.requests) + UNDELIVERED * (|s.requests| - |s.jobs|)
    + Sum(s.jobs, JobWork) + UNSUBMITTED * (|s.jobs| - s.submitted)
    + PoolWork(s.pool) + ConnWork(s.conn)
    + ChannelWork(s.clientRead, s.toClient, s.answers)
  }

  lemma StepsLeftNonNegative(s: State)
    requires Inv(s)
    ensures StepsLeft(s) >= PoolWork(s.pool)
  {
    hide PartsInv, RequestInv, JobOk, ReplyInv, Sum, EncodeAll, ReadInv, Reassemble;
    hide ClientWork, PoolWork, ConnWork;
    DeliveredPrefix(s.serverRead, s.toServer);
    ReassemblePrefix(s.toServer, s.requests);
    assert |s.serverRead.delivered| <= |s.requests|;
  }

  // ------------------------------------------------------------ part by part

  lemma ClientWorks(c: Cl.State, a: Cl.Action)
    requires Cl.Enabled(c, a)
    ensures var d := ClientWork(Cl.Apply(c, a)) - ClientWork(c);
            && (a.Register? || a.Enqueue? || a.WriteDone? || a.Fulfil? ==> d < 0)
            && (a.StartWrite? ==> d <= (if c.queue == [] then -1 else 1 - CLIENT_ITEM))
            && (a.Match? || a.RejectAll? ==> d <= 1)
  {
    hide Sum, Cl.SeqOf;
    if a.Register? {
      SumUpdate(c.phase, a.call, Cl.Registered, PhaseWork);
    } else if a.Enqueue? {
      SumUpdate(c.phase, a.call, Cl.Queued, PhaseWork);
    }
  }

  lemma ConnWorks(c: Co.State, a: Co.Action)
    requires Co.Enabled(c, a)
    ensures var d := ConnWork(Co.Apply(c, a)) - ConnWork(c);
            && (a.SendPush? || a.WriteDone? ==> d < 0)
            && (a.SendTest? ==> d <= SERVER_ITEM + 2)
            && (a.StartWrite? ==> d <= (if c.queue == [] then -1 else 1 - SERVER_ITEM))
            && (a.ReadFailed? ==> d == 0)
  {
    hide Sum;
    if a.SendPush? {
      SumUpdate(c.phase, a.send, Co.Pushed, SendWork);
    } else if a.SendTest? {
      SumSnoc(c.phase, if c.closed then Co.Dropped else Co.Checked, SendWork);
    }
  }

  lemma PoolWorks<T(!new)>(p: Po.State<T>, a: Po.Action<T>)
    requires Po.Enabled(p, a)
    ensures var d := PoolWork(Po.Apply(p, a)) - PoolWork(p);
            (OrdinaryInPool(a) ==> d < 0) && (a.Push? ==> d <= 9)
  {
    hide Sum;
    var p' := Po.Apply(p, a);
    if Po.Mover(a).Some? {
      var w := Po.Mover(a).value;
      SumUpdate(p.workers, w, p'.workers[w], WorkerWork);
      assert p'.workers == p.workers[w := p'.workers[w]];
    }
  }

  lemma FrameBound(m: Message)
    requires WellFramed(m)
    ensures |Encode(m)| < FRAME
  {
  }

  lemma ChannelWorksHand(read: ReadState, carried: Bytes, sent: seq<Message>, m: Message)
    requires WellFramed(m)
    ensures ChannelWork(read, carried, sent + [m]) < ChannelWork(read, carried, sent) + BYTE * FRAME
  {
    hide Encode, EncodeAll, WellFramed;
    FrameBound(m);
    EncodeAllSnoc(sent, m);
  }

  lemma ChannelWorksRead(read: ReadState, carried: Bytes, sent: seq<Message>)
    requires CanRead(read, carried)
    ensures ChannelWork(Read(read, carried), carried, sent) <= ChannelWork(read, carried, sent) - 2
    ensures ChannelWork(ReadError(Read(read, carried)), carried, sent) <= ChannelWork(read, carried, sent) - 2
  {
    hide EncodeAll, DeserializeHeader;
  }

  // ----------------------------------------------------------- action by action

  lemma CallerWorks(s: State, call: Cl.Action)
    requires Enabled(s, Caller(call)) && (call.Register? || call.Enqueue?)
    ensures StepsLeft(Apply(s, Caller(call))) < StepsLeft(s)
  {
    hide Cl.Apply, ClientWork, ChannelWork, Sum, PoolWork, ConnWork;
    ClientWorks(s.client, call);
  }

  lemma ClientStartWriteWorks(s: State)
    requires RequestInv(s) && Enabled(s, ClientStartWrite)
    ensures StepsLeft(Apply(s, ClientStartWrite)) < StepsLeft(s)
  {
    hide Cl.Apply, ClientWork, ChannelWork, Sum, PoolWork, ConnWork, RequestMessage, WellFramed;
    ClientWorks(s.client, Cl.StartWrite);
    if s.client.queue != [] {
      var c := s.client.queue[0];
      RequestWellFramed(Cl.SeqOf(c), s.client.calls[c]);
      ChannelWorksHand(s.serverRead, s.toServer, s.requests, RequestOf(s.client, c));
    }
  }

  lemma ClientWriteDoneWorks(s: State, i: nat)
    requires Enabled(s, ClientWriteDone(i))
    ensures StepsLeft(Apply(s, ClientWriteDone(i))) < StepsLeft(s)
  {
    hide Cl.Apply, ClientWork, ChannelWork, Sum, PoolWork, ConnWork, EncodeAll;
    ClientWorks(s.client, Cl.WriteDone(i));
  }

  lemma CarryWorks(s: State, a: Action)
    requires Enabled(s, a) && ((a.ToServer? && a.bytes != []) || (a.ToClient? && a.bytes != []))
    ensures StepsLeft(Apply(s, a)) < StepsLeft(s)
  {
    hide ClientWork, Sum, PoolWork, ConnWork, EncodeAll;
  }

  lemma ServerReadWorks(s: State)
    requires Enabled(s, ServerRead)
    ensures StepsLeft(Apply(s, ServerRead)) < StepsLeft(s)
  {
    hide ClientWork, ChannelWork, Sum, PoolWork, ConnWork, Co.Apply, DeserializeHeader, Read;
    ChannelWorksRead(s.serverRead, s.toServer, s.requests);
    SumSnoc(s.jobs, Waiting, JobWork);
    if ConnMove(s, ServerRead).Some? {
      ConnWorks(s.conn, Co.ReadFailed);
    }
  }

  lemma SubmitWorks(s: State)
    requires Enabled(s, Submit)
    ensures StepsLeft(Apply(s, Submit)) < StepsLeft(s)
  {
    hide ClientWork, ChannelWork, Sum, PoolWork, ConnWork, Po.Apply;
    PoolWorks(s.pool, Po.Push(Mine(s.submitted)));
  }

  lemma PoolStepWorks(s: State, step: Po.Action<Task>)
    requires Enabled(s, PoolStep(step)) && OrdinaryInPool(step)
    ensures StepsLeft(Apply(s, PoolStep(step))) < StepsLeft(s)
  {
    hide ClientWork, ChannelWork, Sum, PoolWork, ConnWork, Po.Apply, PoolMayStep;
    PoolWorks(s.pool, step);
  }

  lemma ProcessWorks(s: State, k: nat, world: Services)
    requires Enabled(s, Process(k, world))
    ensures StepsLeft(Apply(s, Process(k, world))) < StepsLeft(s)
  {
    hide ClientWork, ChannelWork, Sum, PoolWork, ConnWork, ProcessRequest, HandlersFrame, Runs;
    SumUpdate(s.jobs, k, Apply(s, Process(k, world)).jobs[k], JobWork);
  }

  lemma SendWorks(s: State, k: nat)
    requires Enabled(s, Send(k))
    ensures StepsLeft(Apply(s, Send(k))) < StepsLeft(s)
  {
    hide ClientWork, ChannelWork, Sum, PoolWork, ConnWork, Co.Apply, Runs, ResponseMessage, Encode;
    SumUpdate(s.jobs, k, Apply(s, Send(k)).jobs[k], JobWork);
    ConnWorks(s.conn, Co.SendTest(Encode(ReplyFrame(s, k))));
  }

  lemma ConnStepWorks(s: State, a: Action)
    requires Enabled(s, a) && (a.ConnWriteDone? || (a.ConnStep? && a.move.SendPush?))
    ensures StepsLeft(Apply(s, a)) < StepsLeft(s)
  {
    hide ClientWork, ChannelWork, Sum, PoolWork, ConnWork, Co.Apply, EncodeAll;
    ConnWorks(s.conn, ConnMove(s, a).value);
  }

  lemma ConnStartWriteWorks(s: State)
    requires ReplyInv(s) && Enabled(s, ConnStartWrite)
    ensures StepsLeft(Apply(s, ConnStartWrite)) < StepsLeft(s)
  {
    hide Co.Apply, ClientWork, ChannelWork, Sum, PoolWork, ConnWork, WellFramed;
    ConnWorks(s.conn, Co.StartWrite);
    if s.conn.queue != [] {
      assert ReplyOk(s, s.conn.queue[0]);
      ChannelWorksHand(s.clientRead, s.toClient, s.answers, s.replies[s.conn.queue[0]]);
    }
  }

  lemma ClientReadWorks(s: State, order: seq<u32>)
    requires Enabled(s, ClientRead(order))
    ensures StepsLeft(Apply(s, ClientRead(order))) < StepsLeft(s)
  {
    hide ClientWork, ChannelWork, Sum, PoolWork, ConnWork, Cl.Apply, DeserializeHeader, DeserializeResponse, Read;
    ChannelWorksRead(s.clientRead, s.toClient, s.answers);
    if ClientMove(s, ClientRead(order)).Some? {
      ClientWorks(s.client, ClientMove(s, ClientRead(order)).value);
    }
  }

  lemma ClientFulfilWorks(s: State)
    requires Enabled(s, ClientFulfil)
    ensures StepsLeft(Apply(s, ClientFulfil)) < StepsLeft(s)
  {
    hide ClientWork, ChannelWork, Sum, PoolWork, ConnWork, Cl.Apply;
    ClientWorks(s.client, Cl.Fulfil);
  }

  /** Every ordinary step brings the system closer to rest. */
  lemma OrdinaryWorks(s: State, a: Action, slow: set<nat>)
    requires Inv(s) && Ordinary(s, a, slow) && Enabled(s, a)
    ensures StepsLeft(Apply(s, a)) < StepsLeft(s)
  {
    hide PartsInv, ChannelInv, RequestInv, JobInv, ReplyInv, PoolLink, Enabled, Apply, StepsLeft;
    match a
    case Caller(call) => CallerWorks(s, call);
    case ClientStartWrite => ClientStartWriteWorks(s);
    case ClientWriteDone(i) => ClientWriteDoneWorks(s, i);
    case ToServer(_) => CarryWorks(s, a);
    case ToClient(_) => CarryWorks(s, a);
    case ServerRead => ServerReadWorks(s);
    case Submit => SubmitWorks(s);
    case PoolStep(step) => PoolStepWorks(s, step);
    case Process(k, world) => ProcessWorks(s, k, world);
    case Send(k) => SendWorks(s, k);
    case ConnStep(_) => ConnStepWorks(s, a);
    case ConnStartWrite => ConnStartWriteWorks(s);
    case ConnWriteDone(_) => ConnStepWorks(s, a);
    case ClientRead(order) => ClientReadWorks(s, order);
    case ClientFulfil => ClientFulfilWorks(s);
  }

  // ------------------------------------------------------------------ whole runs

  ghost predicate OrdinaryRun(s: State, acts: seq<Action>, slow: set<nat>)
    requires RunOk(s, acts)
    decreases |acts|
  {
    acts == [] || (Ordinary(s, acts[0], slow) && OrdinaryRun(Apply(s, acts[0]), acts[1..], slow))
  }

  /** Every schedule of ordinary steps ends, within a number of steps known at its start.
      Where it ends without a failure, every call is answered (`StuckMeansAnswered`). */
  lemma {:induction false} ScheduleEnds(s: State, acts: seq<Action>, slow: set<nat>)
    requires Inv(s) && RunOk(s, acts) && OrdinaryRun(s, acts, slow)
    ensures |acts| <= StepsLeft(s)
    decreases |acts|
  {
    hide Inv, Enabled, Apply, Ordinary, StepsLeft;
    StepsLeftNonNegative(s);
    if acts != [] {
      OrdinaryWorks(s, acts[0], slow);
      Step(s, acts[0]);
      ScheduleEnds(Apply(s, acts[0]), acts[1..], slow);
    }
  }

  // ------------------------------------------------------------ every schedule

  predicate HasResponse(j: Job) { j.Computed? || j.Sent? }

  /** A computed response stays what it is. */
  lemma ResponseStays(s: State, a: Action, k: nat)
    requires k < |s.jobs| && HasResponse(s.jobs[k]) && Enabled(s, a)
    ensures var jobs := Apply(s, a).jobs;
            k < |jobs| && HasResponse(jobs[k]) && jobs[k].response == s.jobs[k].response
  {
    if TouchesJobs(a) {
      hide Co.Apply, ClientMove, ConnMove, PoolMove, Read, HandlersFrame, ProcessRequest, Runs, ResponseMessage;
    } else {
      hide Enabled, Apply;
      JobsUntouched(s, a);
    }
  }

  lemma FitBefore(s: State, a: Action)
    requires Enabled(s, a) && AllFit(Apply(s, a))
    ensures AllFit(s)
  {
    hide Enabled, Apply, ResponseFits;
    forall k | 0 <= k < |s.jobs| && HasResponse(s.jobs[k]) ensures ResponseFits(s.jobs[k].response) {
      ResponseStays(s, a, k);
    }
  }

  /** While responses fit their fields, no schedule of ordinary steps runs into a failure. */
  lemma {:induction false} ScheduleStaysSound(s: State, acts: seq<Action>, slow: set<nat>)
    requires Inv(s) && Sound(s) && RunOk(s, acts) && OrdinaryRun(s, acts, slow) && AllFit(Exec(s, acts))
    ensures Sound(Exec(s, acts)) && AllFit(s)
    decreases |acts|
  {
    hide Inv, Sound, AllFit, Enabled, Apply, Ordinary;
    if acts != [] {
      FitFromEnd(s, acts);
      SoundStep(s, acts[0], slow);
      Step(s, acts[0]);
      ScheduleStaysSound(Apply(s, acts[0]), acts[1..], slow);
    }
  }

  lemma {:induction false} FitFromEnd(s: State, acts: seq<Action>)
    requires RunOk(s, acts) && AllFit(Exec(s, acts))
    ensures AllFit(s)
    decreases |acts|
  {
    hide AllFit, Enabled, Apply;
    if acts != [] {
      FitFromEnd(Apply(s, acts[0]), acts[1..]);
      FitBefore(s, acts[0]);
    }
  }

  lemma {:induction false} WorkersStay(s: State, acts: seq<Action>)
    requires RunOk(s, acts)
    ensures |Exec(s, acts).pool.workers| == |s.pool.workers|
    decreases |acts|
  {
    hide Enabled, Apply;
    if acts != [] {
      WorkersKept(s, acts[0]);
      WorkersStay(Apply(s, acts[0]), acts[1..]);
    }
  }

  lemma WorkersKept(s: State, a: Action)
    requires Enabled(s, a)
    ensures |Apply(s, a).pool.workers| == |s.pool.workers|
  {
    hide Po.Apply, ClientMove, ConnMove, PoolMove, Between, Guard;
    if PoolMove(s, a).Some? {
      PoolKeepsWorkers(s.pool, PoolMove(s, a).value);
    }
  }

  lemma PoolKeepsWorkers(p: Po.State<Task>, a: Po.Action<Task>)
    requires Po.Enabled(p, a)
    ensures |Po.Apply(p, a).workers| == |p.workers|
  {
  }

  /** What a run has to keep to for every response to fit its fields: the names of a call
      leave room for the longest message built from them, and handlers return what fits. */
  ghost predicate FitStep(a: Action)
  {
    && (a.Caller? && a.call.Allocate? ==>
          RequestFits(a.call.request) && NamesFit(a.call.request.service, a.call.request.meth))
    && (a.Process? ==> HandlersFit(a.world))
  }

  ghost predicate FitInv(s: State)
  {
    && (forall c :: 0 <= c < |s.client.calls| ==>
          RequestFits(s.client.calls[c]) && NamesFit(s.client.calls[c].service, s.client.calls[c].meth))
    && (forall k :: 0 <= k < |s.jobs| && HasResponse(s.jobs[k]) ==> HandlersFit(s.jobs[k].services))
  }

  lemma FitInvJobs(s: State, a: Action)
    requires FitInv(s) && Enabled(s, a) && FitStep(a)
    ensures var jobs := Apply(s, a).jobs;
            forall k :: 0 <= k < |jobs| && HasResponse(jobs[k]) ==> HandlersFit(jobs[k].services)
  {
    hide HandlersFit, NamesFit;
    if TouchesJobs(a) {
      hide Co.Apply, ClientMove, ConnMove, PoolMove, Read, HandlersFrame, ProcessRequest, Runs, ResponseMessage;
    } else {
      hide Enabled, Apply;
      JobsUntouched(s, a);
    }
  }

  lemma FitInvCalls(s: State, a: Action)
    requires Enabled(s, a)
    ensures var calls := Apply(s, a).client.calls;
            calls == if a.Caller? && a.call.Allocate? then s.client.calls + [a.call.request] else s.client.calls
  {
    if a.Caller? {
      hide Cl.Apply;
      ClientGrows(s.client, a.call);
    } else if a.ClientStartWrite? {
      hide Enabled, Apply;
      StartWriteGrows(s);
    } else {
      hide Enabled, Apply;
      RequestsUntouched(s, a);
    }
  }

  lemma FitInvStep(s: State, a: Action)
    requires FitInv(s) && Enabled(s, a) && FitStep(a)
    ensures FitInv(Apply(s, a))
  {
    hide Enabled, Apply, HandlersFit, NamesFit, RequestFits;
    FitInvJobs(s, a);
    FitInvCalls(s, a);
  }

  lemma {:induction false} FitRun(s: State, acts: seq<Action>)
    requires FitInv(s) && RunOk(s, acts) && forall i :: 0 <= i < |acts| ==> FitStep(acts[i])
    ensures FitInv(Exec(s, acts))
    decreases |acts|
  {
    hide FitInv, FitStep, Enabled, Apply;
    if acts != [] {
      FitInvStep(s, acts[0]);
      FitRun(Apply(s, acts[0]), acts[1..]);
    }
  }

  /** Then every response does. */
  lemma FitMeansAllFit(s: State)
    requires Inv(s) && FitInv(s)
    ensures AllFit(s)
  {
    hide PartsInv, ReplyInv, PoolLink, ChannelInv, JobOk, HandlersFit, NamesFit, DispatchCall, ReplyTo;
    hide ProcessRequest, OutcomeFits, RequestFits, ResponseFits;
    forall k | 0 <= k < |s.jobs| && HasResponse(s.jobs[k]) ensures ResponseFits(s.jobs[k].response) {
      JobComputes(s, k);
      var q := s.client.calls[s.client.handed[k]];
      DispatchFits(s.jobs[k].services, q.service, q.meth, q.params);
      ReplyFits(DispatchCall(s.jobs[k].services, q.service, q.meth, q.params));
    }
  }

  lemma ReplyFits(outcome: Outcome)
    requires OutcomeFits(outcome) && ReplyTo(outcome).Respond?
    ensures ResponseFits(ReplyTo(outcome).response)
  {
    hide CText, Classify;
  }

  /** The system does its work under every schedule. Take any state a run has reached
      without a failure, and let it go on by ordinary steps in any order, while fewer
      handlers than workers hang. It takes no more than `StepsLeft` steps. When none is
      left and no failure came up, every call outside the hanging handlers has been
      answered, or its handler threw something that is not a `runtime_error`, unless its
      entry was overwritten. And a failure can only come up by itself when some response
      exceeded its fields, so never where names and handlers keep to their bounds. */
  lemma EveryScheduleAnswers(
    s: State, e: State, n: nat, before: seq<Action>, acts: seq<Action>, slow: set<nat>, c: nat)
    requires |slow| < n && Reachable(s, n, before) && Sound(s)
    requires RunOk(s, acts) && OrdinaryRun(s, acts, slow) && e == Exec(s, acts) && Stuck(e, slow)
    ensures |acts| <= StepsLeft(s)
    ensures Sound(e) && c < |e.client.calls| && c !in slow && c !in e.client.lost ==>
              EscapedCall(e, c) || AnsweredCall(e, c)
    ensures Sound(e) || !AllFit(e)
    ensures (forall i :: 0 <= i < |before + acts| ==> FitStep((before + acts)[i])) ==> Sound(e) && AllFit(e)
  {
    hide Inv, Sound, AllFit, Stuck, StepsLeft, EscapedCall, AnsweredCall, FitStep, Init, OrdinaryRun;
    ReachableInv(s, n, before);
    ScheduleEnds(s, acts, slow);
    RunAppend(Init(n), before, acts);
    ReachableInv(e, n, before + acts);
    if forall i :: 0 <= i < |before + acts| ==> FitStep((before + acts)[i]) {
      InitFits(n);
      FitRun(Init(n), before + acts);
      FitMeansAllFit(e);
    }
    if AllFit(e) {
      ScheduleStaysSound(s, acts, slow);
    }
    InitWorkers(n);
    WorkersStay(Init(n), before + acts);
    if Sound(e) && c < |e.client.calls| && c !in slow && c !in e.client.lost {
      StuckMeansAnswered(e, n, before + acts, slow, c);
    }
  }

  lemma InitFits(n: nat)
    ensures FitInv(Init(n))
  {
  }

  lemma InitWorkers(n: nat)
    ensures |Init(n).pool.workers| == n
  {
  }
}
