/** The composed system is able to do its work, and to do it out of order. From a fresh
    start any batch of calls, with any services, has a run that answers all of them; and
    any calls fewer than the workers can be overtaken by all the others. So the theorems
    about every run and about every resting state speak of real behaviour. */
module Feasibility {
  import opened Wire
  import opened Framing
  import opened Dispatch
  import Cl = ClientProtocol
  import Co = ConnectionProtocol
  import Po = PoolProtocol
  import opened EndToEnd
  import opened Matching
  import opened Spacing
  import opened Quiescence
  import opened Progress
  import opened Termination

  // ------------------------------------------------------- one set of services

  /** Everything computed so far was computed with these services, and nothing for the
      calls in `slow`. */
  ghost predicate WorldInv(s: State, world: Services, slow: set<nat>)
  {
    forall k :: 0 <= k < |s.jobs| && !s.jobs[k].Waiting? ==>
      && s.jobs[k].services == world
      && k < |s.client.handed| && s.client.handed[k] !in slow
  }

  /** An ordinary step that uses these services. */
  ghost predicate Uses(s: State, a: Action, world: Services, slow: set<nat>)
  {
    Ordinary(s, a, slow) && (a.Process? ==> a.world == world)
  }

  lemma WorldTouched(s: State, a: Action, world: Services, slow: set<nat>)
    requires WorldInv(s, world, slow) && Uses(s, a, world, slow) && Enabled(s, a) && TouchesJobs(a)
    ensures WorldInv(Apply(s, a), world, slow)
  {
    hide Co.Apply, Read, ProcessRequest, HandlersFrame, Runs, ResponseMessage;
  }

  lemma WorldStep(s: State, a: Action, world: Services, slow: set<nat>)
    requires WorldInv(s, world, slow) && Uses(s, a, world, slow) && Enabled(s, a)
    ensures WorldInv(Apply(s, a), world, slow)
  {
    hide Enabled, Apply;
    if TouchesJobs(a) {
      WorldTouched(s, a, world, slow);
    } else {
      JobsUntouched(s, a);
      HandedGrows(s, a);
    }
  }

  /** A request that these services can take: its sizes fit, and so does what comes back. */
  ghost predicate Served(q: RpcRequest, world: Services)
  {
    CallFrames(q) && RequestFits(q) && OutcomeFits(DispatchCall(world, q.service, q.meth, q.params))
  }

  ghost predicate AllServed(qs: seq<RpcRequest>, world: Services)
  {
    forall c :: 0 <= c < |qs| ==> Served(qs[c], world)
  }

  lemma WorldFits(s: State, world: Services, slow: set<nat>)
    requires Inv(s) && WorldInv(s, world, slow) && AllServed(s.client.calls, world)
    ensures AllFit(s)
  {
    hide Inv, DispatchCall, OutcomeFits, ReplyTo, ResponseFits;
    forall k | 0 <= k < |s.jobs| && (s.jobs[k].Computed? || s.jobs[k].Sent?) ensures ResponseFits(s.jobs[k].response) {
      var q := JobOfCall(s, k);
      assert Served(q, world);
      ReplyFits(DispatchCall(world, q.service, q.meth, q.params));
    }
  }

  lemma JobOfCall(s: State, k: nat) returns (q: RpcRequest)
    requires Inv(s) && k < |s.jobs| && (s.jobs[k].Computed? || s.jobs[k].Sent?)
    ensures q in s.client.calls
    ensures RequestFits(q) ==>
              ReplyTo(DispatchCall(s.jobs[k].services, q.service, q.meth, q.params)) == Respond(s.jobs[k].response)
  {
    hide PartsInv, ReplyInv, PoolLink, ChannelInv, JobOk, DispatchCall, ReplyTo, ProcessRequest, RequestFits;
    JobComputes(s, k);
    q := s.client.calls[s.client.handed[k]];
  }

  // ------------------------------------------------------------- running to rest

  lemma SameCalls(s: State, a: Action, slow: set<nat>)
    requires Ordinary(s, a, slow) && Enabled(s, a)
    ensures Apply(s, a).client.calls == s.client.calls
  {
    hide Enabled, Apply;
    if a.Caller? {
      CallerKeeps(s, a.call);
    } else if a.ClientStartWrite? {
      StartWriteGrows(s);
    } else {
      RequestsUntouched(s, a);
    }
  }

  lemma CallerKeeps(s: State, call: Cl.Action)
    requires Enabled(s, Caller(call)) && !call.Allocate?
    ensures Apply(s, Caller(call)).client.calls == s.client.calls
  {
    hide Cl.Apply;
    ClientGrows(s.client, call);
  }

  lemma SettledStays(s: State, a: Action)
    requires Enabled(s, a)
    ensures s.client.settled <= Apply(s, a).client.settled
  {
    hide Cl.Apply, Cl.Enabled, ClientMove, ConnMove, PoolMove, Between, Guard;
    if ClientMove(s, a).Some? {
      SettledGrows(s.client, ClientMove(s, a).value);
    }
  }

  /** The services of a step may be replaced by any others that fit a frame. */
  lemma AnyWorld(s: State, a: Action, world: Services, slow: set<nat>) returns (b: Action)
    requires Ordinary(s, a, slow) && Enabled(s, a) && HandlersFrame(world)
    ensures Uses(s, b, world, slow) && Enabled(s, b)
  {
    hide HandlersFrame, Cl.Enabled, Po.Enabled, Co.Enabled, Runs;
    b := if a.Process? then Process(a.job, world) else a;
  }

  /** What the rest of a run builds on. */
  ghost predicate Ready(s: State, world: Services, slow: set<nat>)
  {
    Inv(s) && Sound(s) && WorldInv(s, world, slow) && AllServed(s.client.calls, world)
  }

  lemma ReadyStep(s: State, a: Action, world: Services, slow: set<nat>)
    requires Ready(s, world, slow) && Uses(s, a, world, slow) && Enabled(s, a)
    ensures Ready(Apply(s, a), world, slow)
  {
    hide Inv, Sound, WorldInv, AllServed, Enabled, Apply, AllFit;
    WorldFits(s, world, slow);
    Step(s, a);
    SoundStep(s, a, slow);
    WorldStep(s, a, world, slow);
    SameCalls(s, a, slow);
  }

  /** From any such state, ordinary steps lead to a state where none is left. */
  lemma {:induction false} RunToRest(s: State, world: Services, slow: set<nat>) returns (e: State, acts: seq<Action>)
    requires Ready(s, world, slow) && HandlersFrame(world)
    ensures RunOk(s, acts) && OrdinaryRun(s, acts, slow) && e == Exec(s, acts)
    ensures Ready(e, world, slow) && Stuck(e, slow)
    ensures e.client.calls == s.client.calls && |e.pool.workers| == |s.pool.workers|
    ensures s.client.settled <= e.client.settled
    decreases StepsLeft(s)
  {
    hide Inv, Sound, WorldInv, AllServed, Enabled, Apply, Ordinary, StepsLeft, HandlersFrame;
    StepsLeftNonNegative(s);
    if Stuck(s, slow) {
      e, acts := s, [];
    } else {
      var found :| Ordinary(s, found, slow) && Enabled(s, found);
      var a := AnyWorld(s, found, world, slow);
      OrdinaryWorks(s, a, slow);
      ReadyStep(s, a, world, slow);
      SameCalls(s, a, slow);
      SettledStays(s, a);
      WorkersKept(s, a);
      var rest;
      e, rest := RunToRest(Apply(s, a), world, slow);
      RunOne(s, a);
      acts := [a] + rest;
      RunAppend(s, [a], rest);
      assert acts[1..] == rest;
    }
  }

  // --------------------------------------------------------------- a fresh batch

  /** Calls have been issued, and nothing else has happened. */
  predicate OnlyIssued(s: State)
  {
    && s.jobs == [] && s.clientRead == READ_START && s.client.loop.Listening? && s.client.settled == []
    && s.client.pending == map[] && s.client.lost == {} && |s.client.phase| == |s.client.calls|
    && forall c :: 0 <= c < |s.client.phase| ==> s.client.phase[c].Allocated?
  }

  lemma AllocateStep(s: State, q: RpcRequest)
    requires Inv(s) && CallFrames(q)
    ensures var a := Caller(Cl.Allocate(q));
            && Enabled(s, a) && Apply(s, a).client.calls == s.client.calls + [q]
            && (Sound(s) ==> Sound(Apply(s, a))) && (OnlyIssued(s) ==> OnlyIssued(Apply(s, a)))
            && Apply(s, a).pool == s.pool
  {
    hide Inv, CallFrames;
  }

  /** All calls are issued before anything else happens. */
  lemma {:induction false} IssueAll(n: nat, qs: seq<RpcRequest>) returns (s: State, acts: seq<Action>)
    requires n >= 1 && forall c :: 0 <= c < |qs| ==> CallFrames(qs[c])
    ensures Reachable(s, n, acts) && Inv(s) && Sound(s)
    ensures OnlyIssued(s) && s.client.calls == qs && |s.pool.workers| == n
    decreases |qs|
  {
    hide Inv, Enabled, Apply, CallFrames;
    if qs == [] {
      s, acts := Init(n), [];
      InitInv(n);
    } else {
      var q := qs[|qs| - 1];
      var t, before := IssueAll(n, qs[..|qs| - 1]);
      var a := Caller(Cl.Allocate(q));
      AllocateStep(t, q);
      Step(t, a);
      s, acts := Apply(t, a), before + [a];
      RunOne(t, a);
      hide Init, Sound;
      RunAppend(Init(n), before, [a]);
    }
  }

  // ------------------------------------------------------------------ the answers

  /** Call `c` is answered with what these services make of it, if they make anything. */
  ghost predicate RightlyAnswered(s: State, c: nat, world: Services)
    requires c < |s.client.calls|
  {
    var q := s.client.calls[c];
    match ReplyTo(DispatchCall(world, q.service, q.meth, q.params))
    case Respond(r) => Cl.Settlement(c, r, Cl.Answered) in s.client.settled
    case Escapes => EscapedCall(s, c)
  }

  lemma EscapedMeans(s: State, world: Services, slow: set<nat>, c: nat)
    requires Ready(s, world, slow) && c < |s.client.calls| && EscapedCall(s, c)
    ensures var q := s.client.calls[c];
            ReplyTo(DispatchCall(world, q.service, q.meth, q.params)) == Escapes
  {
    hide PartsInv, ReplyInv, PoolLink, ChannelInv, Sound, DispatchCall, ReplyTo, OutcomeFits, DeserializeRequest;
    hide HandlersFrame, CallFrames;
    var k :| 0 <= k < |s.jobs| && k < |s.client.handed| && s.client.handed[k] == c && s.jobs[k].Escaped?;
    DeliveredIsRequest(s, k);
    assert Served(s.client.calls[c], world);
    RequestReadBack(Cl.SeqOf(c), s.client.calls[c]);
    assert JobOk(s.jobs[k], s.serverRead.delivered[k]);
  }

  lemma AnsweredMeans(s: State, world: Services, slow: set<nat>, i: nat, k: nat)
    requires Ready(s, world, slow) && i < |s.client.settled| && AnsweredBy(s, s.client.settled[i], k)
    ensures var c := s.client.settled[i].call;
            && c < |s.client.calls| && c !in slow
            && var q := s.client.calls[c];
               ReplyTo(DispatchCall(world, q.service, q.meth, q.params)) == Respond(s.client.settled[i].response)
  {
    hide Inv, Sound, DispatchCall, ReplyTo, OutcomeFits, ResponseFits, DeserializeResponse, CallFrames, ProcessRequest;
    WorldFits(s, world, slow);
    assert Served(s.client.calls[s.client.settled[i].call], world);
  }

  lemma AnswersRight(s: State, n: nat, acts: seq<Action>, world: Services, slow: set<nat>, c: nat)
    requires n >= 1 && Reachable(s, n, acts) && Ready(s, world, slow) && Stuck(s, slow)
    requires |slow| < |s.pool.workers| && |s.client.calls| <= U32_SPAN && c < |s.client.calls| && c !in slow
    ensures RightlyAnswered(s, c, world)
  {
    hide Inv, Sound, WorldInv, AllServed, Stuck, DispatchCall, ReplyTo, AnsweredBy, Init;
    FewCallsAnswered(s, n, acts, 0);
    StuckMeansAnswered(s, n, acts, slow, c);
    if EscapedCall(s, c) {
      EscapedMeans(s, world, slow, c);
    } else {
      var i :| 0 <= i < |s.client.settled| && s.client.settled[i].call == c && s.client.settled[i].how.Answered?;
      FewCallsAnswered(s, n, acts, i);
      var k :| AnsweredBy(s, s.client.settled[i], k);
      AnsweredMeans(s, world, slow, i, k);
      var x := s.client.settled[i];
      assert x == Cl.Settlement(c, x.response, Cl.Answered);
    }
  }

  lemma SlowNotAnswered(s: State, n: nat, acts: seq<Action>, world: Services, slow: set<nat>, c: nat)
    requires n >= 1 && Reachable(s, n, acts) && Ready(s, world, slow) && |s.client.calls| <= U32_SPAN && c in slow
    ensures !AnsweredCall(s, c)
  {
    hide Inv, Sound, WorldInv, AllServed, AnsweredBy, Init, DispatchCall, ReplyTo;
    if AnsweredCall(s, c) {
      var i :| 0 <= i < |s.client.settled| && s.client.settled[i].call == c && s.client.settled[i].how.Answered?;
      FewCallsAnswered(s, n, acts, i);
      var k :| AnsweredBy(s, s.client.settled[i], k);
      AnsweredMeans(s, world, slow, i, k);
    }
  }

  /** Any batch of calls can be answered, and any of them, if fewer than the workers, last:
      some run first answers all calls outside `slow` and none in it, each with what the
      services make of that call, and then goes on to answer the others too. */
  lemma AnsweredInAnyOrder(n: nat, qs: seq<RpcRequest>, world: Services, slow: set<nat>)
    returns (s: State, acts: seq<Action>, e: State, more: seq<Action>)
    requires |slow| < n && |qs| <= U32_SPAN && HandlersFrame(world) && AllServed(qs, world)
    ensures Reachable(s, n, acts) && s.client.calls == qs
    ensures forall c :: 0 <= c < |qs| && c !in slow ==> RightlyAnswered(s, c, world)
    ensures forall c :: c in slow ==> !AnsweredCall(s, c)
    ensures Reachable(e, n, acts + more) && e.client.calls == qs && s.client.settled <= e.client.settled
    ensures AtRest(e, {}) && forall c :: 0 <= c < |qs| ==> RightlyAnswered(e, c, world)
  {
    hide Inv, Sound, WorldInv, HandlersFrame, Enabled, Apply, AtRest, RightlyAnswered, AnsweredCall, Stuck;
    var s0, acts0, acts1;
    s0, acts0 := IssueBatch(n, qs, world, slow);
    s, acts1 := RunToRest(s0, world, slow);
    hide Init;
    acts := acts0 + acts1;
    RunAppend(Init(n), acts0, acts1);
    forall c | 0 <= c < |qs| && c !in slow ensures RightlyAnswered(s, c, world) {
      AnswersRight(s, n, acts, world, slow, c);
    }
    forall c | c in slow ensures !AnsweredCall(s, c) {
      SlowNotAnswered(s, n, acts, world, slow, c);
    }
    ReleaseSlow(s, world, slow);
    e, more := RunToRest(s, world, {});
    RunAppend(Init(n), acts, more);
    forall c | 0 <= c < |qs| ensures RightlyAnswered(e, c, world) {
      AnswersRight(e, n, acts + more, world, {}, c);
    }
    StuckIsAtRest(e, {});
  }

  lemma ReleaseSlow(s: State, world: Services, slow: set<nat>)
    requires Ready(s, world, slow)
    ensures Ready(s, world, {})
  {
    hide Inv, Sound;
  }

  lemma IssueBatch(n: nat, qs: seq<RpcRequest>, world: Services, slow: set<nat>)
    returns (s: State, acts: seq<Action>)
    requires n >= 1 && AllServed(qs, world)
    ensures Reachable(s, n, acts) && Ready(s, world, slow)
    ensures OnlyIssued(s) && s.client.calls == qs && |s.pool.workers| == n
  {
    hide Inv, Sound, OutcomeFits, DispatchCall, CallFrames;
    forall c | 0 <= c < |qs| ensures CallFrames(qs[c]) {
      assert Served(qs[c], world);
    }
    s, acts := IssueAll(n, qs);
  }

  /** In particular two calls on two workers: the second is answered before the first. */
  lemma SecondBeforeFirst(q0: RpcRequest, q1: RpcRequest, world: Services, r0: RpcResponse, r1: RpcResponse)
    returns (e: State, acts: seq<Action>, i: nat, j: nat)
    requires HandlersFrame(world) && Served(q0, world) && Served(q1, world)
    requires ReplyTo(DispatchCall(world, q0.service, q0.meth, q0.params)) == Respond(r0)
    requires ReplyTo(DispatchCall(world, q1.service, q1.meth, q1.params)) == Respond(r1)
    ensures Reachable(e, 2, acts) && AtRest(e, {}) && e.client.calls == [q0, q1]
    ensures i < j < |e.client.settled|
    ensures e.client.settled[i] == Cl.Settlement(1, r1, Cl.Answered)
    ensures e.client.settled[j] == Cl.Settlement(0, r0, Cl.Answered)
  {
    hide Inv, Sound, WorldInv, HandlersFrame, Reachable, AtRest, DispatchCall, ReplyTo, Served;
    var s, acts0, more;
    s, acts0, e, more := AnsweredInAnyOrder(2, [q0, q1], world, {0});
    acts := acts0 + more;
    assert RightlyAnswered(s, 1, world) && RightlyAnswered(e, 0, world);
    i :| 0 <= i < |s.client.settled| && s.client.settled[i] == Cl.Settlement(1, r1, Cl.Answered);
    j :| 0 <= j < |e.client.settled| && e.client.settled[j] == Cl.Settlement(0, r0, Cl.Answered);
    assert !AnsweredCall(s, 0);
    assert forall h :: 0 <= h < |s.client.settled| ==> e.client.settled[h] == s.client.settled[h];
  }
}
