/** What happens when a sequence number is taken again too early: the late call gets the
    answer to the early one. So the condition on runs in `Matching` cannot be dropped. */
module Reuse {
  import opened Wire
  import opened Framing
  import opened Dispatch
  import Cl = ClientProtocol
  import Co = ConnectionProtocol
  import Po = PoolProtocol
  import opened EndToEnd
  import opened Matching
  import opened Quiescence
  import opened Progress
  import opened Termination
  import opened Feasibility

  /** The first call that takes the number of call 0 again. */
  const LATE: nat := U32_SPAN

  // ------------------------------------------------------- the number taken twice

  /** Both calls are registered, the late one has overwritten the early one, and it does
      not wait any more once a response with their number has come. */
  ghost predicate TakenInv(s: State)
  {
    && |s.client.calls| == LATE + 1 && Cl.IsRegistered(s.client, 0) && Cl.IsRegistered(s.client, LATE)
    && s.client.lost == {0}
    && (forall m: nat :: NumberedAt(s.clientRead.delivered, m, LATE) ==> !Cl.IsPending(s.client, LATE))
  }

  lemma SameNumber()
    ensures Cl.SeqOf(LATE) == Cl.SeqOf(0) == 1
  {
  }

  /** Among these calls no other two share a number. */
  lemma OnlyThesePair(x: nat, d: nat)
    requires x <= LATE && d <= LATE && x != d && Cl.SeqOf(x) == Cl.SeqOf(d)
    ensures (x == 0 && d == LATE) || (x == LATE && d == 0)
  {
    hide Cl.SeqOf;
    if x < d {
      Cl.SeqOfCollision(x, d);
    } else {
      Cl.SeqOfCollision(d, x);
    }
  }

  lemma NobodyElseLost(c: Cl.State, a: Cl.Action)
    requires Cl.Inv(c) && Cl.Enabled(c, a) && |c.calls| == LATE + 1
    requires Cl.IsRegistered(c, 0) && Cl.IsRegistered(c, LATE)
    ensures Cl.Apply(c, a).lost == c.lost
  {
    hide Cl.SeqOf, Cl.WriteInv, Cl.NothingLost, Cl.HistoryInv;
    if a.Register? && c.seqs[a.call] in c.pending {
      PendingNumber(c, c.seqs[a.call]);
      OnlyThesePair(a.call, c.pending[c.seqs[a.call]]);
    }
  }

  lemma TakenClient(s: State, a: Action)
    requires Inv(s) && TakenInv(s) && Enabled(s, a)
    ensures var c := Apply(s, a).client; Cl.IsRegistered(c, 0) && Cl.IsRegistered(c, LATE) && c.lost == {0}
  {
    hide Inv, Cl.Apply, Cl.Enabled, Cl.IsRegistered, Cl.IsPending, Between, ClientMove, ConnMove, PoolMove, Guard;
    hide NumberedAt;
    SeqOfInv(s);
    if ClientMove(s, a).Some? {
      var move := ClientMove(s, a).value;
      RegisteredBy(s.client, move, 0);
      RegisteredBy(s.client, move, LATE);
      NobodyElseLost(s.client, move);
    }
  }

  lemma TakenStep(s: State, a: Action, slow: set<nat>)
    requires Inv(s) && TakenInv(s) && Enabled(s, a) && Ordinary(s, a, slow)
    ensures TakenInv(Apply(s, a))
  {
    hide Inv, Apply, Enabled, Ordinary, Cl.IsRegistered, Cl.IsPending, Cl.SeqOf;
    SameCalls(s, a, slow);
    TakenClient(s, a);
    ClientDelivers(s, a);
    var s' := Apply(s, a);
    forall m: nat | NumberedAt(s'.clientRead.delivered, m, LATE) ensures !Cl.IsPending(s'.client, LATE) {
      if m < |s.clientRead.delivered| {
        assert NumberedAt(s.clientRead.delivered, m, LATE);
        StaysServed(s, a, LATE);
      } else {
        ReadClears(s, a, LATE);
      }
    }
  }

  lemma {:induction false} TakenRun(s: State, acts: seq<Action>, slow: set<nat>)
    requires Inv(s) && TakenInv(s)
    requires RunOk(s, acts) && OrdinaryRun(s, acts, slow)
    ensures var e := Exec(s, acts); TakenInv(e)
    decreases |acts|
  {
    hide Inv, TakenInv, Enabled, Apply, Ordinary;
    if acts != [] {
      Step(s, acts[0]);
      TakenStep(s, acts[0], slow);
      TakenRun(Apply(s, acts[0]), acts[1..], slow);
    }
  }

  // ------------------------------------------------------------------- the start

  lemma RegisterStep(s: State, c: nat)
    requires Inv(s) && c < |s.client.phase| && s.client.phase[c].Allocated?
    ensures var a := Caller(Cl.Register(c));
            && Enabled(s, a) && Inv(Apply(s, a)) && Apply(s, a) == s.(client := Cl.Apply(s.client, Cl.Register(c)))
  {
    hide Inv, Cl.SeqOf;
    SeqOfInv(s);
    Step(s, Caller(Cl.Register(c)));
  }

  lemma Overwritten(c: Cl.State) returns (c1: Cl.State, c2: Cl.State)
    requires Cl.Inv(c) && |c.calls| == LATE + 1 && c.lost == {} && c.pending == map[] && c.settled == []
    requires forall i :: 0 <= i < |c.phase| ==> c.phase[i].Allocated?
    ensures Cl.Enabled(c, Cl.Register(0)) && c1 == Cl.Apply(c, Cl.Register(0))
    ensures LATE < |c1.phase| && c1.phase[LATE].Allocated?
    ensures Cl.Enabled(c1, Cl.Register(LATE)) && c2 == Cl.Apply(c1, Cl.Register(LATE))
    ensures c2.calls == c.calls && c2.lost == {0} && c2.settled == [] && c2.loop == c.loop
    ensures Cl.IsRegistered(c2, 0) && Cl.IsRegistered(c2, LATE)
  {
    hide Cl.SeqOf, Cl.WriteInv, Cl.PromiseInv, Cl.NothingLost, Cl.HistoryInv;
    SameNumber();
    c1 := Cl.Apply(c, Cl.Register(0));
    c2 := Cl.Apply(c1, Cl.Register(LATE));
  }

  // ------------------------------------------------------------------- the result

  /** A response with the shared number is the one to call 0 while the late call's own
      request has not been processed. */
  lemma NumberedIsFirst(s: State, world: Services, slow: set<nat>, m: nat, r: RpcResponse)
    requires Ready(s, world, slow) && LATE in slow && |s.client.calls| == LATE + 1
    requires NumberedAt(s.clientRead.delivered, m, LATE) && BodyAt(s.clientRead.delivered, m, r)
    ensures var q := s.client.calls[0];
            ReplyTo(DispatchCall(world, q.service, q.meth, q.params)) == Respond(r)
  {
    hide Sound, PartsInv, RequestInv, PoolLink, DeserializeResponse, ReadInv, EncodeAll, Reassemble, Cl.SeqOf;
    hide DispatchCall, ReplyTo, OutcomeFits, ResponseFits, JobOk, CallFrames, ProcessRequest, RequestFits;
    DeliveredPrefix(s.clientRead, s.toClient);
    ReassemblePrefix(s.toClient, s.answers);
    assert s.clientRead.delivered <= s.answers;
    var send := s.conn.handed[m];
    assert s.clientRead.delivered[m] == s.answers[m] == s.replies[send];
    var k := s.senders[send];
    assert ReplyOk(s, send);
    DeliveredIsRequest(s, k);
    JobComputes(s, k);
    SeqOfInv(s);
    if s.client.handed[k] != LATE {
      OnlyThesePair(s.client.handed[k], LATE);
    }
    assert Served(s.client.calls[0], world);
    ReplyFits(DispatchCall(world, s.client.calls[0].service, s.client.calls[0].meth, s.client.calls[0].params));
    SurvivesExactly(s.jobs[k].response);
  }

  /** At rest the late call has been answered. */
  lemma LateAnswered(s: State, world: Services, slow: set<nat>) returns (i: nat)
    requires Ready(s, world, slow) && AtRest(s, slow) && AllQueued(s.client) && TakenInv(s) && HowInv(s)
    requires 0 !in slow && !EscapedCall(s, 0)
    ensures i < |s.client.settled| && s.client.settled[i].call == LATE && s.client.settled[i].how.Answered?
  {
    hide Sound, RequestInv, JobInv, ReplyInv, PoolLink, Cl.Inv, Po.Inv, Co.Inv, EncodeAll, CanRead, ReadInv;
    hide WellFramed, HeldUp, WorldInv, AllServed, AnswerFor, Cl.SeqOf;
    SeqOfInv(s);
    QueuedAtRest(s.client);
    var k := RestingCallsHanded(s.client, 0);
    AllDelivered(s.serverRead, s.toServer, s.requests);
    JobPerRequest(s);
    RestingJobsDone(s, k, slow);
    assert s.jobs[k].Sent?;
    var m := ResponseDelivered(s, k, slow);
    DeliveredAnswers(s, m);
    OneCallPerFrame(s, m, 0, CallAt(s, m));
    SameNumber();
    assert NumberedAt(s.clientRead.delivered, m, LATE);
    LateSettled(s.client);
    i :| 0 <= i < |s.client.settled| && s.client.settled[i].call == LATE;
  }

  lemma QueuedAtRest(c: Cl.State)
    requires Cl.SeqInv(c) && AllQueued(c) && |c.calls| == LATE + 1
    ensures 0 < |c.phase| && c.phase[0].Queued?
  {
    hide Cl.SeqOf;
  }

  lemma LateSettled(c: Cl.State)
    requires Cl.Inv(c) && c.lost == {0} && Cl.IsRegistered(c, LATE) && !Cl.IsPending(c, LATE) && c.loop.Listening?
    ensures Cl.IsSettled(c, LATE)
  {
    hide Cl.SeqInv, Cl.WriteInv, Cl.NothingLost, Cl.HistoryInv, Cl.SeqOf;
  }

  /** The start of the run: everybody has a number, and the two calls are registered. */
  lemma TakeTwice(n: nat, qs: seq<RpcRequest>, world: Services, slow: set<nat>)
    returns (s: State, acts: seq<Action>)
    requires n >= 1 && |qs| == LATE + 1 && AllServed(qs, world)
    ensures Reachable(s, n, acts) && Ready(s, world, slow) && TakenInv(s) && s.client.calls == qs
    ensures |s.pool.workers| == n
  {
    hide Inv, AllServed, Enabled, Apply, Cl.Apply, Cl.Enabled, Cl.Inv, Cl.IsRegistered;
    var t, before := IssueBatch(n, qs, world, slow);
    SeqOfInv(t);
    var c1, c2 := Overwritten(t.client);
    var a, b := Caller(Cl.Register(0)), Caller(Cl.Register(LATE));
    RegisterStep(t, 0);
    var u := Apply(t, a);
    RegisterStep(u, LATE);
    s := Apply(u, b);
    acts := before + [a] + [b];
    RunOne(t, a);
    RunOne(u, b);
    hide Init, Sound;
    RunAppend(Init(n), before, [a]);
    RunAppend(Init(n), before + [a], [b]);
  }

  /** Two calls that are 2^32 numbers apart, on two workers: the late one is answered with
      what the services made of the early one's request, and its own request has not even
      been processed. */
  lemma MisdeliveryHappens(n: nat, qs: seq<RpcRequest>, world: Services, r: RpcResponse)
    returns (s: State, acts: seq<Action>)
    requires n >= 2 && |qs| == LATE + 1 && HandlersFrame(world) && AllServed(qs, world)
    requires ReplyTo(DispatchCall(world, qs[0].service, qs[0].meth, qs[0].params)) == Respond(r)
    ensures Reachable(s, n, acts) && s.client.calls == qs
    ensures Cl.Settlement(LATE, r, Cl.Answered) in s.client.settled
    ensures forall k :: 0 <= k < |s.jobs| && k < |s.client.handed| && s.client.handed[k] == LATE ==> s.jobs[k].Waiting?
  {
    hide Inv, Sound, AllServed, HandlersFrame, Enabled, Apply, TakenInv, DispatchCall, ReplyTo;
    hide AtRest, Stuck, EscapedCall, AllQueued;
    var s0, acts0 := TakeTwice(n, qs, world, {LATE});
    var more;
    s, more := RunToRest(s0, world, {LATE});
    TakenRun(s0, more, {LATE});
    hide Init;
    acts := acts0 + more;
    RunAppend(Init(n), acts0, more);
    StuckIsAtRest(s, {LATE});
    if EscapedCall(s, 0) {
      EscapedMeans(s, world, {LATE}, 0);
    }
    ReachableMatch(s, n, acts);
    var i := LateAnswered(s, world, {LATE});
    var frame :| Assigned(s.client, s.clientRead.delivered, frame);
    NumberedIsFirst(s, world, {LATE}, frame[LATE], s.client.settled[i].response);
    assert s.client.settled[i] == Cl.Settlement(LATE, r, Cl.Answered);
  }
}
