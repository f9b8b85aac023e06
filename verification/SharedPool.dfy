/** The whole server: any number of clients, each with its own connection and channels,
    over one thread pool. Seen from one connection, the server is a run of `EndToEnd` in
    which the tasks of all other connections are somebody else's; so what is proved there
    holds for every client, and no response ever leaves on a foreign connection. */
module SharedPool {
  import opened Common
  import opened Wire
  import opened Framing
  import opened Dispatch
  import Cl = ClientProtocol
  import Co = ConnectionProtocol
  import Po = PoolProtocol
  import E = EndToEnd
  import opened Matching
  import opened Spacing
  import opened Quiescence
  import P = Progress
  import T = Termination

  /** A task of the pool: message `job` of connection `link`, or something else entirely. */
  datatype Tag = Tagged(link: nat, job: nat) | Outside

  /** Each link is a client with its channels and its connection; the pool inside it is not
      used. A connection that opens later is one that has not moved yet. */
  datatype State = State(links: seq<E.State>, pool: Po.State<Tag>)

  datatype Action =
    | OnLink(i: nat, move: E.Action)
    | InPool(step: Po.Action<Tag>)

  function Init(n: nat, count: nat): State
  {
    State(seq(count, _ => E.Init(n)), Po.Init<Tag>(n))
  }

  // --------------------------------------------------- as seen by one connection

  function TaskFor(t: Tag, i: nat): E.Task { if t.Tagged? && t.link == i then E.Mine(t.job) else E.Foreign }

  function TasksFor(q: seq<Tag>, i: nat): (r: seq<E.Task>)
    ensures |r| == |q| && forall j :: 0 <= j < |q| ==> r[j] == TaskFor(q[j], i)
  {
    seq(|q|, j requires 0 <= j < |q| => TaskFor(q[j], i))
  }

  function PoolFor(p: Po.State<Tag>, i: nat): Po.State<E.Task>
  {
    Po.State(TasksFor(p.tasks, i), p.stop, p.pendingCount, p.activeTasks, p.completed, p.workers, p.inEnqueue,
             p.owed, p.owedAll, TasksFor(p.accepted, i), TasksFor(p.taken, i), p.finished)
  }

  function StepFor(step: Po.Action<Tag>, i: nat): Po.Action<E.Task>
  {
    match step
    case Push(t) => Po.Push(TaskFor(t, i))
    case Refuse => Po.Refuse
    case CountPending => Po.CountPending
    case NotifyOne(woken) => Po.NotifyOne(woken)
    case WakeSpuriously(w) => Po.WakeSpuriously(w)
    case Check(w) => Po.Check(w)
    case Begin(w) => Po.Begin(w)
    case EndBody(w) => Po.EndBody(w)
    case Retire(w) => Po.Retire(w)
    case Complete(w) => Po.Complete(w)
    case Release(w) => Po.Release(w)
    case Stop => Po.Stop
    case NotifyAll => Po.NotifyAll
  }

  function View(s: State, i: nat): E.State
    requires i < |s.links|
  {
    s.links[i].(pool := PoolFor(s.pool, i))
  }

  // ------------------------------------------------------------------ the steps

  /** A task body ends only when the job of its own connection is done. */
  ghost predicate Enabled(s: State, a: Action)
  {
    match a
    case OnLink(i, move) => i < |s.links| && !move.PoolStep? && E.Enabled(View(s, i), move)
    case InPool(step) =>
      && Po.Enabled(s.pool, step) && (step.Push? ==> step.t == Outside)
      && forall i :: 0 <= i < |s.links| ==> E.PoolMayStep(View(s, i), StepFor(step, i))
  }

  /** What an action does to the pool. */
  ghost function PoolPart(s: State, a: Action): Option<Po.Action<Tag>>
    requires Enabled(s, a)
  {
    match a
    case OnLink(i, move) =>
      if move.Submit? then Some(Po.Push(Tagged(i, s.links[i].submitted)))
      else if move.SubmitRefused? then Some(Po.Refuse)
      else None
    case InPool(step) => Some(step)
  }

  ghost function Apply(s: State, a: Action): State
    requires Enabled(s, a)
  {
    var links := if a.OnLink? then s.links[a.i := E.Apply(View(s, a.i), a.move)] else s.links;
    var part := PoolPart(s, a);
    PoolPartIfAny(s, a);
    State(links, if part.Some? then Po.Apply(s.pool, part.value) else s.pool)
  }

  lemma PoolPartIfAny(s: State, a: Action)
    requires Enabled(s, a)
    ensures PoolPart(s, a).Some? ==> Po.Enabled(s.pool, PoolPart(s, a).value)
  {
    hide Cl.Enabled, Co.Enabled;
  }

  ghost predicate RunOk(s: State, acts: seq<Action>)
    decreases |acts|
  {
    acts == [] || (Enabled(s, acts[0]) && RunOk(Apply(s, acts[0]), acts[1..]))
  }

  ghost function Exec(s: State, acts: seq<Action>): State
    requires RunOk(s, acts)
    decreases |acts|
  {
    if acts == [] then s else Exec(Apply(s, acts[0]), acts[1..])
  }

  ghost predicate Reachable(s: State, n: nat, count: nat, acts: seq<Action>)
  {
    RunOk(Init(n, count), acts) && s == Exec(Init(n, count), acts)
  }

  // ------------------------------------------------------------- the projection

  /** The pool does the same whatever its tasks are called. */
  lemma PoolSame(p: Po.State<Tag>, step: Po.Action<Tag>, i: nat)
    ensures Po.Enabled(p, step) <==> Po.Enabled(PoolFor(p, i), StepFor(step, i))
    ensures Po.Enabled(p, step) ==> PoolFor(Po.Apply(p, step), i) == Po.Apply(PoolFor(p, i), StepFor(step, i))
  {
    hide Po.AnyAsleep;
    if Po.Enabled(p, step) {
      var q := PoolFor(Po.Apply(p, step), i);
      var r := Po.Apply(PoolFor(p, i), StepFor(step, i));
      assert q.tasks == r.tasks && q.accepted == r.accepted && q.taken == r.taken;
    }
  }

  /** What connection `i` sees of an action. */
  ghost function SeenBy(s: State, a: Action, i: nat): seq<E.Action>
    requires Enabled(s, a)
  {
    if a.OnLink? && a.i == i then [a.move]
    else if PoolPart(s, a).Some? then [E.PoolStep(StepFor(PoolPart(s, a).value, i))]
    else []
  }

  lemma OwnStepSeen(s: State, i: nat, move: E.Action)
    requires Enabled(s, OnLink(i, move))
    ensures View(Apply(s, OnLink(i, move)), i) == E.Apply(View(s, i), move)
  {
    hide E.Apply, E.Enabled, Po.Apply, Po.Enabled, PoolFor;
    var a := OnLink(i, move);
    var part := PoolPart(s, a);
    PoolPartIfAny(s, a);
    LinkKeepsPool(View(s, i), move);
    if part.Some? {
      PoolSame(s.pool, part.value, i);
      assert E.Apply(View(s, i), move).pool == PoolFor(Po.Apply(s.pool, part.value), i);
    } else {
      assert E.Apply(View(s, i), move).pool == PoolFor(s.pool, i);
    }
    assert Apply(s, a).links[i] == E.Apply(View(s, i), move);
  }

  /** Only submitting and the pool's own steps move the pool. */
  lemma LinkKeepsPool(s: E.State, move: E.Action)
    requires E.Enabled(s, move)
    ensures var pool := E.Apply(s, move).pool;
            pool == match move
                    case Submit => Po.Apply(s.pool, Po.Push(E.Mine(s.submitted)))
                    case SubmitRefused => Po.Apply(s.pool, Po.Refuse)
                    case PoolStep(step) => Po.Apply(s.pool, step)
                    case _ => s.pool
  {
    hide E.Between, E.ClientMove, E.ConnMove, Po.Apply, Po.Enabled;
  }

  lemma OthersStepSeen(s: State, a: Action, i: nat)
    requires Enabled(s, a) && i < |s.links| && PoolPart(s, a).Some? && !(a.OnLink? && a.i == i)
    ensures var step := E.PoolStep(StepFor(PoolPart(s, a).value, i));
            E.Enabled(View(s, i), step) && View(Apply(s, a), i) == E.Apply(View(s, i), step)
  {
    hide Po.Apply, Po.Enabled, PoolFor, E.Apply, E.Enabled, E.JobDone, StepFor;
    var step := PoolPart(s, a).value;
    PoolPartIfAny(s, a);
    PoolSame(s.pool, step, i);
    assert E.PoolMayStep(View(s, i), StepFor(step, i)) by { OthersMayStep(s, a, i); }
    PoolStepAlone(View(s, i), StepFor(step, i));
  }

  lemma OthersMayStep(s: State, a: Action, i: nat)
    requires Enabled(s, a) && i < |s.links| && PoolPart(s, a).Some? && !(a.OnLink? && a.i == i)
    ensures E.PoolMayStep(View(s, i), StepFor(PoolPart(s, a).value, i))
  {
    hide E.Enabled, E.JobDone, Po.Enabled;
  }

  lemma PoolStepAlone(s: E.State, step: Po.Action<E.Task>)
    requires E.PoolMayStep(s, step) && Po.Enabled(s.pool, step)
    ensures E.Enabled(s, E.PoolStep(step)) && E.Apply(s, E.PoolStep(step)) == s.(pool := Po.Apply(s.pool, step))
  {
    hide E.PoolMayStep, Po.Enabled, Po.Apply;
  }

  lemma StepSeen(s: State, a: Action, i: nat)
    requires Enabled(s, a) && i < |s.links|
    ensures |Apply(s, a).links| == |s.links|
    ensures E.RunOk(View(s, i), SeenBy(s, a, i))
    ensures E.Exec(View(s, i), SeenBy(s, a, i)) == View(Apply(s, a), i)
  {
    if a.OnLink? && a.i == i {
      hide E.Enabled, E.Apply, View;
      OwnStepSeen(s, i, a.move);
      E.RunOne(View(s, i), a.move);
    } else if PoolPart(s, a).Some? {
      OthersStepSeen(s, a, i);
      hide E.Enabled, E.Apply, View;
      E.RunOne(View(s, i), E.PoolStep(StepFor(PoolPart(s, a).value, i)));
    } else {
      hide E.Enabled, E.Apply;
    }
  }

  /** What connection `i` sees of a run. */
  ghost function SeenIn(s: State, acts: seq<Action>, i: nat): seq<E.Action>
    requires RunOk(s, acts)
    decreases |acts|
  {
    if acts == [] then [] else SeenBy(s, acts[0], i) + SeenIn(Apply(s, acts[0]), acts[1..], i)
  }

  /** Seen from any of its connections, a run of the server is a run of `EndToEnd`. */
  lemma {:induction false} RunSeen(s: State, acts: seq<Action>, i: nat)
    requires RunOk(s, acts) && i < |s.links|
    ensures |Exec(s, acts).links| == |s.links|
    ensures E.RunOk(View(s, i), SeenIn(s, acts, i))
    ensures E.Exec(View(s, i), SeenIn(s, acts, i)) == View(Exec(s, acts), i)
    decreases |acts|
  {
    hide Enabled, Apply, View, SeenBy;
    if acts != [] {
      StepSeen(s, acts[0], i);
      RunSeen(Apply(s, acts[0]), acts[1..], i);
      E.RunAppend(View(s, i), SeenBy(s, acts[0], i), SeenIn(Apply(s, acts[0]), acts[1..], i));
    }
  }

  lemma InitSeen(n: nat, count: nat, i: nat)
    requires i < count
    ensures View(Init(n, count), i) == E.Init(n)
  {
  }

  lemma ReachableSeen(s: State, n: nat, count: nat, acts: seq<Action>, i: nat)
    requires Reachable(s, n, count, acts) && i < count
    ensures |s.links| == count && E.Reachable(View(s, i), n, SeenIn(Init(n, count), acts, i))
  {
    hide View;
    assert |Init(n, count).links| == count;
    InitSeen(n, count, i);
    hide Init;
    RunSeen(Init(n, count), acts, i);
  }

  // --------------------------------------------------------------- every client

  /** When call `c` of client `i` registers, the earlier owners of its number are through. */
  ghost predicate StartsCleanOn(s: State, acts: seq<Action>, i: nat, c: nat)
    requires RunOk(s, acts)
    decreases |acts|
  {
    acts != [] ==>
      && (acts[0] == OnLink(i, E.Caller(Cl.Register(c))) && i < |s.links| ==> CleanStart(s.links[i].client, c))
      && StartsCleanOn(Apply(s, acts[0]), acts[1..], i, c)
  }

  lemma CleanSeen(s: State, a: Action, i: nat, c: nat, rest: seq<E.Action>)
    requires Enabled(s, a) && i < |s.links|
    requires a == OnLink(i, E.Caller(Cl.Register(c))) ==> CleanStart(s.links[i].client, c)
    requires E.RunOk(View(Apply(s, a), i), rest) && StartsClean(View(Apply(s, a), i), rest, c)
    ensures E.RunOk(View(s, i), SeenBy(s, a, i) + rest) && StartsClean(View(s, i), SeenBy(s, a, i) + rest, c)
  {
    StepSeen(s, a, i);
    assert View(s, i).client == s.links[i].client;
    hide Enabled, Apply, E.Enabled, E.Apply, View, CleanStart, PoolPart;
    var seen := SeenBy(s, a, i);
    E.RunAppend(View(s, i), seen, rest);
    if seen == [] {
      assert seen + rest == rest;
    } else {
      assert (seen + rest)[1..] == rest && seen[1..] == [];
    }
  }

  lemma {:induction false} CleanSeenIn(s: State, acts: seq<Action>, i: nat, c: nat)
    requires RunOk(s, acts) && i < |s.links| && StartsCleanOn(s, acts, i, c)
    ensures E.RunOk(View(s, i), SeenIn(s, acts, i)) && StartsClean(View(s, i), SeenIn(s, acts, i), c)
    decreases |acts|
  {
    hide Enabled, Apply, View, SeenBy, StartsClean, CleanStart;
    if acts == [] {
      NothingIsClean(View(s, i), c);
    } else {
      StepSeen(s, acts[0], i);
      CleanSeenIn(Apply(s, acts[0]), acts[1..], i, c);
      CleanSeen(s, acts[0], i, c, SeenIn(Apply(s, acts[0]), acts[1..], i));
    }
  }

  lemma NothingIsClean(s: E.State, c: nat)
    ensures StartsClean(s, [], c)
  {
  }

  /** Every client's answers are its own calls' answers, however the shared pool reorders
      the work of all connections. */
  lemma EveryClientsAnswerIsItsOwn(s: State, n: nat, count: nat, acts: seq<Action>, i: nat, x: nat)
    requires n >= 1 && Reachable(s, n, count, acts) && i < count && i < |s.links|
    requires x < |s.links[i].client.settled| && s.links[i].client.settled[x].how.Answered?
    requires StartsCleanOn(Init(n, count), acts, i, s.links[i].client.settled[x].call)
    ensures exists k :: AnsweredBy(View(s, i), s.links[i].client.settled[x], k)
  {
    hide AnsweredBy, StartsClean, StartsCleanOn, E.Reachable;
    ReachableSeen(s, n, count, acts, i);
    assert |Init(n, count).links| == count;
    InitSeen(n, count, i);
    CleanSeenIn(Init(n, count), acts, i, s.links[i].client.settled[x].call);
    EveryAnswerIsItsOwn(View(s, i), n, SeenIn(Init(n, count), acts, i), x);
  }

  /** Every response leaves on the connection its request came from: the `m`-th frame that
      connection `i` sends is what serving a call of its own client gave, under that call's
      number. */
  lemma ResponsesStayHome(s: State, n: nat, count: nat, acts: seq<Action>, i: nat, m: nat)
    returns (c: nat, k: nat)
    requires n >= 1 && Reachable(s, n, count, acts) && i < count && i < |s.links| && m < |s.links[i].answers|
    ensures c < |s.links[i].client.calls| && k < |s.links[i].jobs| && s.links[i].jobs[k].Sent?
    ensures E.ServesCall(View(s, i), k, c, s.links[i].client.calls[c]) && AnswerFor(View(s, i), m, c)
    ensures s.links[i].answers[m]
         == ResponseMessage(E.RequestOf(s.links[i].client, c).header, s.links[i].jobs[k].response)
  {
    hide E.ServesCall, E.Reachable;
    ReachableSeen(s, n, count, acts, i);
    E.ReachableInv(View(s, i), n, SeenIn(Init(n, count), acts, i));
    c, k := HomeOf(View(s, i), m);
  }

  lemma HomeOf(s: E.State, m: nat) returns (c: nat, k: nat)
    requires E.Inv(s) && m < |s.answers|
    ensures c < |s.client.calls| && k < |s.jobs| && s.jobs[k].Sent?
    ensures E.ServesCall(s, k, c, s.client.calls[c]) && AnswerFor(s, m, c)
    ensures s.answers[m] == ResponseMessage(E.RequestOf(s.client, c).header, s.jobs[k].response)
  {
    hide E.PartsInv, E.ChannelInv, E.RequestInv, E.JobInv, E.PoolLink, E.ServesCall, ResponseMessage, WellFramed;
    var send := s.conn.handed[m];
    assert E.ReplyOk(s, send);
    k := s.senders[send];
    E.DeliveredIsRequest(s, k);
    E.JobComputes(s, k);
    c := s.client.handed[k];
  }

  /** When the shared pool has shut down, every connection's submitted requests are served. */
  lemma SharedShutdownServesAll(s: State, n: nat, count: nat, acts: seq<Action>, i: nat, k: nat)
    requires n >= 1 && Reachable(s, n, count, acts) && i < count && i < |s.links|
    requires Po.AllExited(s.pool.workers) && k < s.links[i].submitted
    ensures E.JobDone(View(s, i), k)
  {
    hide E.Reachable, E.JobDone;
    ReachableSeen(s, n, count, acts, i);
    E.ShutdownServesAll(View(s, i), n, SeenIn(Init(n, count), acts, i), k);
  }

  // -------------------------------------------------------------------- progress

  /** The slow calls of client `i`. */
  function SlowOn(slow: set<(nat, nat)>, i: nat): set<nat>
  {
    set p | p in slow && p.0 == i :: p.1
  }

  predicate Ordinary(s: State, a: Action, slow: set<(nat, nat)>)
  {
    match a
    case OnLink(i, move) => i < |s.links| && P.Ordinary(View(s, i), move, SlowOn(slow, i))
    case InPool(step) => P.OrdinaryInPool(step)
  }

  ghost predicate Stuck(s: State, slow: set<(nat, nat)>)
  {
    forall a :: Ordinary(s, a, slow) ==> !Enabled(s, a)
  }

  ghost predicate AllInv(s: State) { forall i :: 0 <= i < |s.links| ==> E.Inv(View(s, i)) }

  lemma LinkIsStuck(s: State, slow: set<(nat, nat)>, i: nat)
    requires Stuck(s, slow) && i < |s.links|
    ensures P.LinkStuck(View(s, i), SlowOn(slow, i))
  {
    hide E.Enabled, P.Ordinary, View, SlowOn;
    forall move | P.Ordinary(View(s, i), move, SlowOn(slow, i)) && !move.PoolStep?
      ensures !E.Enabled(View(s, i), move)
    {
      assert !Enabled(s, OnLink(i, move));
    }
  }

  lemma PoolIsStuck(s: State, slow: set<(nat, nat)>)
    requires Stuck(s, slow)
    ensures P.PoolStuck(s.pool)
  {
    hide Po.Enabled, View;
    forall step | P.OrdinaryInPool(step) && !step.EndBody? ensures !Po.Enabled(s.pool, step) {
      assert !Enabled(s, InPool(step));
    }
  }

  /** Worker `w` is inside the handler of a slow call of client `j`. */
  predicate SlowFor(s: State, w: nat, slow: set<(nat, nat)>, j: nat)
  {
    j < |s.links| && P.InSlowHandler(View(s, j), w, SlowOn(slow, j))
  }

  lemma RunningIsSlow(s: State, slow: set<(nat, nat)>, w: nat) returns (j: nat)
    requires AllInv(s) && Stuck(s, slow) && |s.links| > 0 && w < |s.pool.workers| && s.pool.workers[w].Running?
    ensures SlowFor(s, w, slow, j)
  {
    hide AllInv, E.JobDone, E.Inv, SlowOn;
    assert E.Inv(View(s, 0)) by { InvOn(s, 0); }
    TaskInRange(s, w);
    EndBodyPossible(s, slow, w);
    j :| 0 <= j < |s.links| && !E.PoolMayStep(View(s, j), Po.EndBody(w));
    InvOn(s, j);
    LinkIsStuck(s, slow, j);
    hide Stuck;
    var k := E.Mine(s.pool.accepted[s.pool.workers[w].task].job).job;
    hide P.LinkStuck;
    JobInRange(View(s, j), w);
    P.JobHasCall(View(s, j), k);
    P.JobMoves(View(s, j), SlowOn(slow, j), w, k);
  }

  lemma InvOn(s: State, i: nat)
    requires AllInv(s) && i < |s.links|
    ensures E.Inv(View(s, i))
  {
    hide E.Inv;
  }

  lemma TaskInRange(s: State, w: nat)
    requires |s.links| > 0 && E.Inv(View(s, 0)) && w < |s.pool.workers| && s.pool.workers[w].Running?
    ensures s.pool.workers[w].task < |s.pool.accepted|
  {
    hide E.ChannelInv, E.RequestInv, E.JobInv, E.ReplyInv, E.PoolLink, Cl.Inv, Co.Inv, Po.Inv;
    P.TaskOfWorker(View(s, 0).pool, w);
  }

  lemma JobInRange(s: E.State, w: nat)
    requires E.Inv(s) && w < |s.pool.workers| && s.pool.workers[w].Running?
    requires s.pool.workers[w].task < |s.pool.accepted| && s.pool.accepted[s.pool.workers[w].task].Mine?
    ensures s.pool.accepted[s.pool.workers[w].task].job < |s.jobs|
  {
    hide E.ChannelInv, E.RequestInv, E.JobInv, E.ReplyInv, E.PartsInv;
  }

  lemma EndBodyPossible(s: State, slow: set<(nat, nat)>, w: nat)
    requires Stuck(s, slow) && w < |s.pool.workers| && s.pool.workers[w].Running?
    ensures exists j :: 0 <= j < |s.links| && !E.PoolMayStep(View(s, j), Po.EndBody(w))
  {
    hide E.PoolMayStep, View;
    assert !Enabled(s, InPool(Po.EndBody(w)));
  }

  /** The slow call that worker `w` is busy with. */
  function SlowPair(s: State, w: nat, slow: set<(nat, nat)>, j: nat): (nat, nat)
    requires SlowFor(s, w, slow, j)
  {
    (j, P.SlowCall(View(s, j), w, SlowOn(slow, j)))
  }

  lemma SlowPairsDiffer(s: State, slow: set<(nat, nat)>, v: nat, i: nat, w: nat, j: nat)
    requires AllInv(s) && v < w && SlowFor(s, v, slow, i) && SlowFor(s, w, slow, j)
    ensures SlowPair(s, v, slow, i) != SlowPair(s, w, slow, j)
  {
    hide E.Inv, P.InSlowHandler, P.SlowCall, View, SlowOn;
    if i == j {
      InvOn(s, i);
      P.SlowCallsDiffer(View(s, i), SlowOn(slow, i), v, w);
    }
  }

  lemma SlowPairIsSlow(s: State, w: nat, slow: set<(nat, nat)>, j: nat)
    requires SlowFor(s, w, slow, j)
    ensures SlowPair(s, w, slow, j) in slow
  {
    P.SlowCallIsSlow(View(s, j), w, SlowOn(slow, j));
  }

  /** With fewer slow calls than workers, some worker is inside no task. */
  lemma SomeWorkerFree(s: State, slow: set<(nat, nat)>) returns (w: nat)
    requires AllInv(s) && Stuck(s, slow) && |s.links| > 0 && |slow| < |s.pool.workers|
    ensures w < |s.pool.workers| && !s.pool.workers[w].Running?
  {
    hide AllInv, Stuck, SlowFor, SlowPair, BusyWithSlow;
    var ws := s.pool.workers;
    if forall v: nat :: v < |ws| ==> ws[v].Running? {
      forall v: nat | v < |ws| ensures BusyWithSlow(s, v, slow) {
        var j := RunningIsSlow(s, slow, v);
        IsBusy(s, v, slow, j);
      }
      var owner := seq(|ws|, v requires 0 <= v < |ws| => OwnerOf(s, v, slow));
      var pairs := seq(|ws|, v requires 0 <= v < |ws| => SlowPair(s, v, slow, owner[v]));
      forall v, w | 0 <= v < w < |pairs| ensures pairs[v] != pairs[w] {
        SlowPairsDiffer(s, slow, v, owner[v], w, owner[w]);
      }
      forall v | 0 <= v < |pairs| ensures pairs[v] in slow {
        SlowPairIsSlow(s, v, slow, owner[v]);
      }
      P.DistinctFit(pairs, slow);
      assert false;
    }
    w :| w < |ws| && !ws[w].Running?;
  }

  ghost predicate BusyWithSlow(s: State, w: nat, slow: set<(nat, nat)>)
  {
    exists j: nat :: SlowFor(s, w, slow, j)
  }

  lemma IsBusy(s: State, w: nat, slow: set<(nat, nat)>, j: nat)
    requires SlowFor(s, w, slow, j)
    ensures BusyWithSlow(s, w, slow)
  {
  }

  ghost function OwnerOf(s: State, w: nat, slow: set<(nat, nat)>): (j: nat)
    requires BusyWithSlow(s, w, slow)
    ensures SlowFor(s, w, slow, j)
  {
    var j: nat :| SlowFor(s, w, slow, j); j
  }

  lemma EmptySharedPool(s: State, slow: set<(nat, nat)>, i: nat)
    requires AllInv(s) && Stuck(s, slow) && |slow| < |s.pool.workers| && i < |s.links| && !s.pool.stop
    ensures s.pool.tasks == [] && !s.pool.inEnqueue
  {
    hide AllInv, Stuck, P.PoolStuck;
    InvOn(s, i);
    var free := SomeWorkerFree(s, slow);
    PoolIsStuck(s, slow);
    SameWakeInv(s, i);
    P.FreeWorkerMeansEmpty(s.pool, free);
  }

  lemma SameWakeInv(s: State, i: nat)
    requires i < |s.links| && E.Inv(View(s, i))
    ensures Po.WakeInv(s.pool) && Po.ParallelInv(s.pool)
  {
    hide E.ChannelInv, E.RequestInv, E.JobInv, E.ReplyInv, E.PoolLink, Cl.Inv, Co.Inv;
    hide Po.CountersInv, Po.OrderInv, Po.OnceInv;
    assert |PoolFor(s.pool, i).tasks| == |s.pool.tasks|;
  }

  lemma OthersHeldUp(s: State, slow: set<(nat, nat)>, i: nat, w: nat)
    requires AllInv(s) && Stuck(s, slow) && i < |s.links| && w < |s.pool.workers|
    requires Po.IsUnfinished(s.pool.workers[w])
    ensures HeldUp(View(s, i), w, SlowOn(slow, i))
  {
    hide AllInv, Stuck, P.PoolStuck, SlowOn;
    PoolIsStuck(s, slow);
    P.NotificationsDone(s.pool);
    P.WorkersStill(s.pool, w);
    var j := RunningIsSlow(s, slow, w);
  }

  /** Where the server comes to a stop, each connection without a failure is at rest,
      whatever happened to the others. */
  lemma StuckIsAtRestOn(s: State, slow: set<(nat, nat)>, i: nat)
    requires AllInv(s) && Stuck(s, slow) && |slow| < |s.pool.workers| && i < |s.links| && P.Sound(View(s, i))
    ensures AtRest(View(s, i), SlowOn(slow, i)) && P.AllQueued(s.links[i].client)
  {
    hide AllInv, Stuck, AtRest, P.LinkStuck, HeldUp, SlowOn, E.Inv, P.AllQueued;
    InvOn(s, i);
    EmptySharedPool(s, slow, i);
    LinkIsStuck(s, slow, i);
    forall w | 0 <= w < |s.pool.workers| && Po.IsUnfinished(s.pool.workers[w])
      ensures HeldUp(View(s, i), w, SlowOn(slow, i))
    {
      OthersHeldUp(s, slow, i, w);
    }
    P.LinkAtRest(View(s, i), SlowOn(slow, i));
  }

  lemma ReachableAllInv(s: State, n: nat, count: nat, acts: seq<Action>)
    requires n >= 1 && Reachable(s, n, count, acts) && count > 0
    ensures AllInv(s) && |s.links| == count
  {
    hide E.Inv, View, E.Reachable;
    ReachableSeen(s, n, count, acts, 0);
    forall i | 0 <= i < |s.links| ensures E.Inv(View(s, i)) {
      ReachableSeen(s, n, count, acts, i);
      E.ReachableInv(View(s, i), n, SeenIn(Init(n, count), acts, i));
    }
  }

  /** Slow handlers, broken channels and closed connections of other clients hold nobody
      up: where the server comes to a stop with fewer hanging handlers than workers, every
      call of a client whose own connection had no failure has been answered, or its
      handler hangs or threw something that is not a `runtime_error`, or its entry was
      overwritten. */
  lemma NobodyHoldsOthersUp(
    s: State, n: nat, count: nat, acts: seq<Action>, slow: set<(nat, nat)>, i: nat, c: nat)
    requires |slow| < n && Reachable(s, n, count, acts) && i < count && i < |s.links|
    requires Stuck(s, slow) && P.Sound(View(s, i))
    requires c < |s.links[i].client.calls| && (i, c) !in slow && c !in s.links[i].client.lost
    ensures EscapedCall(View(s, i), c) || AnsweredCall(View(s, i), c)
  {
    hide Stuck, P.Sound, AtRest, EscapedCall, AnsweredCall, AllInv, E.Reachable, E.Inv;
    ReachableAllInv(s, n, count, acts);
    ReachableSeen(s, n, count, acts, i);
    var seen := SeenIn(Init(n, count), acts, i);
    WorkersOf(View(s, i), n, seen);
    StuckIsAtRestOn(s, slow, i);
    E.ReachableInv(View(s, i), n, seen);
    SeqOfInv(View(s, i));
    hide Cl.SeqOf;
    AtRestEveryCallAnswered(View(s, i), n, seen, SlowOn(slow, i), c);
  }

  lemma WorkersOf(s: E.State, n: nat, acts: seq<E.Action>)
    requires E.Reachable(s, n, acts)
    ensures |s.pool.workers| == n
  {
    hide E.Init;
    T.InitWorkers(n);
    T.WorkersStay(E.Init(n), acts);
  }

  // ----------------------------------------------------------------- termination

  /** What a connection has left to do, without the pool. */
  function LinkWork(s: E.State): int { T.StepsLeft(s) - T.PoolWork(s.pool) }

  function LinksWork(links: seq<E.State>): int
  {
    if links == [] then 0 else LinkWork(links[0]) + LinksWork(links[1..])
  }

  lemma {:induction false} LinksWorkUpdate(links: seq<E.State>, i: nat, link: E.State)
    requires i < |links|
    ensures LinksWork(links[i := link]) == LinksWork(links) - LinkWork(links[i]) + LinkWork(link)
  {
    hide LinkWork;
    if i == 0 {
      assert links[i := link][1..] == links[1..];
    } else {
      assert links[i := link][1..] == links[1..][i - 1 := link];
      LinksWorkUpdate(links[1..], i - 1, link);
    }
  }

  /** How many ordinary steps the whole server has left at most. */
  function ServerWork(s: State): int { LinksWork(s.links) + T.PoolWork(s.pool) }

  lemma ViewWork(s: State, i: nat)
    requires i < |s.links|
    ensures LinkWork(View(s, i)) == LinkWork(s.links[i])
    ensures T.StepsLeft(View(s, i)) == LinkWork(s.links[i]) + T.PoolWork(s.pool)
  {
    hide T.ClientWork, T.ChannelWork, T.ConnWork, Sum;
    assert |PoolFor(s.pool, i).tasks| == |s.pool.tasks|;
  }

  lemma OrdinaryWorks(s: State, a: Action, slow: set<(nat, nat)>)
    requires AllInv(s) && Ordinary(s, a, slow) && Enabled(s, a)
    ensures ServerWork(Apply(s, a)) < ServerWork(s)
  {
    hide AllInv, LinkWork, E.Apply, E.Enabled, E.Inv, Po.Apply, T.PoolWork, T.StepsLeft, P.Ordinary, SlowOn;
    match a
    case OnLink(i, move) =>
      InvOn(s, i);
      OwnStepSeen(s, i, move);
      T.OrdinaryWorks(View(s, i), move, SlowOn(slow, i));
      ViewWork(s, i);
      ViewWork(Apply(s, a), i);
      LinksWorkUpdate(s.links, i, Apply(s, a).links[i]);
    case InPool(step) =>
      T.PoolWorks(s.pool, step);
  }

  lemma AllInvStep(s: State, a: Action)
    requires AllInv(s) && Enabled(s, a)
    ensures AllInv(Apply(s, a))
  {
    hide E.Inv, Enabled, Apply, View, SeenBy;
    var t := Apply(s, a);
    forall i | 0 <= i < |t.links| ensures E.Inv(View(t, i)) {
      LinksStay(s, a);
      StepSeen(s, a, i);
      E.RunKeepsInv(View(s, i), SeenBy(s, a, i));
    }
  }

  lemma LinksStay(s: State, a: Action)
    requires Enabled(s, a)
    ensures |Apply(s, a).links| == |s.links|
  {
    hide E.Apply, E.Enabled;
  }

  lemma {:induction false} LinksWorkNonNegative(links: seq<E.State>)
    requires forall i :: 0 <= i < |links| ==> LinkWork(links[i]) >= 0
    ensures LinksWork(links) >= 0
  {
    hide LinkWork;
    if links != [] {
      LinksWorkNonNegative(links[1..]);
    }
  }

  lemma LinkWorkNonNegative(s: E.State)
    requires E.Inv(s)
    ensures LinkWork(s) >= 0
  {
    hide E.Inv, T.StepsLeft, T.PoolWork;
    T.StepsLeftNonNegative(s);
  }

  lemma ServerWorkNonNegative(s: State)
    requires AllInv(s)
    ensures ServerWork(s) >= 0
  {
    hide AllInv, LinkWork, E.Inv, View;
    forall i | 0 <= i < |s.links| ensures LinkWork(s.links[i]) >= 0 {
      InvOn(s, i);
      LinkWorkNonNegative(View(s, i));
      ViewWork(s, i);
    }
    LinksWorkNonNegative(s.links);
  }

  ghost predicate OrdinaryRun(s: State, acts: seq<Action>, slow: set<(nat, nat)>)
    requires RunOk(s, acts)
    decreases |acts|
  {
    acts == [] || (Ordinary(s, acts[0], slow) && OrdinaryRun(Apply(s, acts[0]), acts[1..], slow))
  }

  /** Every schedule of the whole server ends, within a number of steps known at its start. */
  lemma {:induction false} ServerScheduleEnds(s: State, acts: seq<Action>, slow: set<(nat, nat)>)
    requires AllInv(s) && RunOk(s, acts) && OrdinaryRun(s, acts, slow)
    ensures |acts| <= ServerWork(s)
    decreases |acts|
  {
    hide AllInv, Enabled, Apply, Ordinary, ServerWork;
    ServerWorkNonNegative(s);
    if acts != [] {
      OrdinaryWorks(s, acts[0], slow);
      AllInvStep(s, acts[0]);
      ServerScheduleEnds(Apply(s, acts[0]), acts[1..], slow);
    }
  }
}
