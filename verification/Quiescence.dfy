/** The other half of the composition: nothing is silently dropped. When the system
    has come to rest without a failure, every call has its answer. */
module Quiescence {
  import opened Wire
  import opened Framing
  import opened Dispatch
  import Cl = ClientProtocol
  import Co = ConnectionProtocol
  import Po = PoolProtocol
  import opened EndToEnd
  import opened Matching

  // ------------------------------------------------ delivered answers are used

  /** A call whose response was delivered is no longer waiting. */
  ghost predicate UsedInv(s: State)
  {
    forall m: nat, c: nat :: m < |s.clientRead.delivered| && AnswerFor(s, m, c) ==> !Cl.IsPending(s.client, c)
  }

  /** What a client step does to the calls that wait. */
  lemma PendingShrinks(c: Cl.State, a: Cl.Action, x: nat)
    requires Cl.Inv(c) && Cl.Enabled(c, a) && x < |c.calls|
    ensures var c' := Cl.Apply(c, a);
            && (Cl.IsPending(c', x) ==> Cl.IsPending(c, x) || a == Cl.Register(x))
            && (a.Match? && a.seqId == Cl.SeqOf(x) ==> !Cl.IsPending(c', x))
            && (a.RejectAll? ==> !Cl.IsPending(c', x))
  {
    hide Cl.SeqOf, Cl.WriteInv, Cl.NothingLost, Cl.HistoryInv;
  }

  lemma RegisterFresh(c: Cl.State, a: Cl.Action, x: nat)
    requires Cl.Enabled(c, a) && Cl.IsRegistered(c, x)
    ensures a != Cl.Register(x)
  {
  }

  /** A registered call that does not wait never waits again. */
  lemma StaysServed(s: State, a: Action, c: nat)
    requires Inv(s) && Enabled(s, a) && Cl.IsRegistered(s.client, c) && !Cl.IsPending(s.client, c)
    requires c < |s.client.calls|
    ensures !Cl.IsPending(Apply(s, a).client, c)
  {
    hide Inv, Cl.Apply, Cl.Enabled, Between, ClientMove, ConnMove, PoolMove, Guard, Cl.IsPending, Cl.IsRegistered;
    if ClientMove(s, a).Some? {
      SeqOfInv(s);
      PendingShrinks(s.client, ClientMove(s, a).value, c);
      RegisterFresh(s.client, ClientMove(s, a).value, c);
    }
  }

  /** The completion that delivers a frame takes its call out of `pending_`. */
  lemma ReadClears(s: State, a: Action, c: nat)
    requires Inv(s) && Enabled(s, a) && a.ClientRead? && Incoming(s).Some?
    requires Incoming(s).value.header.seqId == Cl.SeqOf(c) && c < |s.client.calls|
    ensures !Cl.IsPending(Apply(s, a).client, c)
  {
    hide Inv, Cl.SeqOf, Cl.Apply, Between, ConnMove, PoolMove, DeserializeResponse, Read;
    SeqOfInv(s);
    PendingShrinks(s.client, ClientMove(s, a).value, c);
  }

  lemma UsedOne(s: State, a: Action, m: nat, c: nat)
    requires Inv(s) && UsedInv(s) && Enabled(s, a)
    requires m < |Apply(s, a).clientRead.delivered| && AnswerFor(Apply(s, a), m, c)
    ensures !Cl.IsPending(Apply(s, a).client, c)
  {
    hide Inv, Apply, Cl.IsPending, Cl.IsRegistered, Cl.SeqOf, DeserializeResponse, Read, Guard, ClientMove;
    hide ConnMove, PoolMove;
    ClientDelivers(s, a);
    if m < |s.clientRead.delivered| {
      DeliveredAnswers(s, m);
      AnswerForStays(s, a, m, CallAt(s, m));
      StaysServed(s, a, c);
    } else {
      var d := IncomingAnswers(s);
      AnswerForStays(s, a, m, d);
      ReadClears(s, a, c);
    }
  }

  lemma UsedStep(s: State, a: Action)
    requires Inv(s) && UsedInv(s) && Enabled(s, a)
    ensures UsedInv(Apply(s, a))
  {
    hide Inv, Apply, Enabled, AnswerFor, Cl.IsPending;
    var s' := Apply(s, a);
    forall m: nat, c: nat | m < |s'.clientRead.delivered| && AnswerFor(s', m, c)
      ensures !Cl.IsPending(s'.client, c)
    {
      UsedOne(s, a, m, c);
    }
  }

  // --------------------------------------------------------------- coming to rest

  /** Worker `w` is inside a handler: of one of the calls in `slow`, or of a task that is
      not this connection's. */
  predicate HeldUp(s: State, w: nat, slow: set<nat>)
  {
    && w < |s.pool.workers| && s.pool.workers[w].Running? && s.pool.workers[w].task < |s.pool.accepted|
    && var t := s.pool.accepted[s.pool.workers[w].task];
       t.Mine? ==> t.job < |s.client.handed| && s.client.handed[t.job] in slow
  }

  /** Nothing is left to do, other than inside the handlers of the calls in `slow` and of
      other connections, and nothing went wrong: no thread is inside a write, both channels
      have carried and both readers consumed everything, no task is queued and none of this
      connection's runs but the slow ones, and no write failed, no reader stopped, no
      connection closed. */
  ghost predicate AtRest(s: State, slow: set<nat>)
  {
    && s.client.writers == 0 && s.client.inFlight == [] && s.client.loop.Listening? && !s.toServerBroken
    && s.toServer == EncodeAll(s.requests) && !s.serverRead.reader.Failed? && !CanRead(s.serverRead, s.toServer)
    && s.submitted == |s.jobs|
    && s.pool.tasks == []
    && (forall w :: 0 <= w < |s.pool.workers| && Po.IsUnfinished(s.pool.workers[w]) ==> HeldUp(s, w, slow))
    && s.conn.writers == 0 && s.conn.inFlight == [] && !s.conn.failed && !s.conn.closed
    && s.toClient == EncodeAll(s.answers) && !s.clientRead.reader.Failed? && !CanRead(s.clientRead, s.toClient)
  }

  /** A reader at rest has delivered exactly the frames of its channel. */
  lemma AllDelivered(read: ReadState, carried: Bytes, sent: seq<Message>)
    requires ChannelInv(read, carried, sent) && carried == EncodeAll(sent)
    requires !read.reader.Failed? && !CanRead(read, carried)
    ensures read.delivered == sent
  {
    hide ReadInv, WellFramed;
    DeliveredAll(read, carried);
    ReassembleEncoded(sent, []);
    assert EncodeAll(sent) + [] == EncodeAll(sent);
    ReassembleNothing();
    assert sent + [] == sent;
  }

  /** With no task queued and none running but slow ones, every other job is done. */
  lemma RestingJobsDone(s: State, k: nat, slow: set<nat>)
    requires Po.Inv(s.pool) && PoolLink(s) && k < s.submitted && k < |s.client.handed| && s.client.handed[k] !in slow
    requires s.pool.tasks == []
    requires forall w ::
               0 <= w < |s.pool.workers| && Po.IsUnfinished(s.pool.workers[w]) ==> HeldUp(s, w, slow)
    ensures JobDone(s, k)
  {
    hide JobDone, Po.CountersInv, Po.WakeInv, Po.ParallelInv;
    assert InPool(s, k);
    var t :| 0 <= t < |s.pool.accepted| && s.pool.accepted[t] == Mine(k);
    assert s.pool.taken + [] == s.pool.taken;
    assert !Po.HasHolder(s.pool, t);
    assert t in s.pool.finished;
    var i :| 0 <= i < |s.pool.finished| && s.pool.finished[i] == t;
    assert TaskDone(s, s.pool.finished[i]);
  }

  /** With the write side of the connection at rest and open, every `send` has reached
      the socket. */
  lemma RestingSendsHanded(c: Co.State, send: nat) returns (m: nat)
    requires Co.Inv(c) && c.writers == 0 && c.inFlight == [] && !c.failed && !c.closed
    requires send < |c.phase| && !c.phase[send].Checked?
    ensures m < |c.handed| && c.handed[m] == send
  {
    assert c.handed + [] == c.handed;
    assert send in c.pushed;
    m :| 0 <= m < |c.handed| && c.handed[m] == send;
  }

  lemma RestingCallsHanded(c: Cl.State, call: nat) returns (k: nat)
    requires Cl.Inv(c) && c.writers == 0 && c.inFlight == []
    requires call < |c.phase| && c.phase[call].Queued?
    ensures k < |c.handed| && c.handed[k] == call
  {
    hide Cl.SeqInv, Cl.PromiseInv, Cl.NothingLost, Cl.HistoryInv;
    assert c.handed + [] == c.handed;
    assert call in c.enqueued;
    k :| 0 <= k < |c.handed| && c.handed[k] == call;
  }

  /** A registered call that does not wait, is not held and is not overwritten is settled. */
  lemma NowhereElse(c: Cl.State, call: nat)
    requires Cl.Inv(c) && call !in c.lost && Cl.IsRegistered(c, call) && !Cl.IsPending(c, call) && c.loop.Listening?
    ensures Cl.IsSettled(c, call)
  {
    hide Cl.SeqInv, Cl.WriteInv, Cl.HistoryInv, Cl.SeqOf;
  }

  ghost predicate AnsweredCall(s: State, c: nat)
  {
    exists i :: 0 <= i < |s.client.settled| && s.client.settled[i].call == c && s.client.settled[i].how.Answered?
  }

  /** The job that served call `c` ended in an exception nobody catches. */
  ghost predicate EscapedCall(s: State, c: nat)
  {
    exists k :: 0 <= k < |s.jobs| && k < |s.client.handed| && s.client.handed[k] == c && s.jobs[k].Escaped?
  }

  /** The response of a finished job has been delivered to the client. */
  lemma ResponseDelivered(s: State, k: nat, slow: set<nat>) returns (m: nat)
    requires Inv(s) && AtRest(s, slow) && k < |s.jobs| && k < |s.client.handed| && JobDone(s, k) && s.jobs[k].Sent?
    ensures m < |s.clientRead.delivered| && AnswerFor(s, m, s.client.handed[k])
  {
    hide RequestInv, JobInv, PoolLink, Cl.Inv, Po.Inv, Co.Inv, EncodeAll, CanRead, ReadInv, WellFramed, HeldUp;
    m := RestingSendsHanded(s.conn, s.jobs[k].send);
    AllDelivered(s.clientRead, s.toClient, s.answers);
    assert ReplyOk(s, s.jobs[k].send);
  }

  lemma AnsweredAtRest(s: State, slow: set<nat>, c: nat)
    requires Inv(s) && HowInv(s) && UsedInv(s) && AtRest(s, slow) && c !in s.client.lost
    requires c < |s.client.phase| && s.client.phase[c].Queued? && c !in slow
    ensures EscapedCall(s, c) || AnsweredCall(s, c)
  {
    hide RequestInv, JobInv, ReplyInv, PoolLink, Cl.Inv, Po.Inv, Co.Inv, EncodeAll, CanRead, ReadInv, WellFramed;
    hide AnswerFor, HeldUp;
    var k := RestingCallsHanded(s.client, c);
    AllDelivered(s.serverRead, s.toServer, s.requests);
    JobPerRequest(s);
    RestingJobsDone(s, k, slow);
    if s.jobs[k].Escaped? {
      assert EscapedCall(s, c);
    } else {
      var m := ResponseDelivered(s, k, slow);
      assert Cl.IsRegistered(s.client, c) && !Cl.IsPending(s.client, c);
      NowhereElse(s.client, c);
      var i :| 0 <= i < |s.client.settled| && s.client.settled[i].call == c;
      assert s.client.settled[i].how.Answered?;
    }
  }

  lemma JobPerRequest(s: State)
    requires Inv(s)
    ensures |s.jobs| == |s.serverRead.delivered| && |s.requests| == |s.client.handed|
  {
    hide PartsInv, ChannelInv, ReplyInv, PoolLink;
  }

  lemma {:induction false} RunKeepsUsed(s: State, acts: seq<Action>)
    requires Inv(s) && UsedInv(s) && RunOk(s, acts)
    ensures UsedInv(Exec(s, acts))
    decreases |acts|
  {
    hide Inv, UsedInv, Enabled, Apply;
    if acts != [] {
      Step(s, acts[0]);
      UsedStep(s, acts[0]);
      RunKeepsUsed(Apply(s, acts[0]), acts[1..]);
    }
  }

  lemma InitUsed(n: nat)
    ensures UsedInv(Init(n))
  {
  }

  /** Whatever the interleaving was: once the system is at rest, every call that was
      queued and not overwritten has been answered by the read loop, unless its handler is
      one of the slow ones or threw something that is not a `runtime_error`. */
  lemma AtRestEveryCallAnswered(s: State, n: nat, acts: seq<Action>, slow: set<nat>, c: nat)
    requires n >= 1 && Reachable(s, n, acts) && AtRest(s, slow)
    requires c < |s.client.phase| && s.client.phase[c].Queued? && c !in slow && c !in s.client.lost
    ensures EscapedCall(s, c) || AnsweredCall(s, c)
  {
    hide Inv, AtRest, HowInv, UsedInv, AssignInv, Cl.OwnerInv, Init;
    InitInv(n);
    InitUsed(n);
    RunKeepsUsed(Init(n), acts);
    ReachableMatch(s, n, acts);
    AnsweredAtRest(s, slow, c);
  }
}
