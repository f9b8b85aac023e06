/** The thread pool as a transition system. One action is one critical section of
    `mux_`, one atomic operation on a counter, one notification, or the end of a
    task body. A task is known by its submission number.

    The counters are integers, so that "never below zero" is a theorem here and
    not a property of their type. */
module PoolProtocol {
  import opened Common

  /** Where a worker stands in `worker_loop`. */
  datatype Worker =
    | Checking             // about to lock `mux_` and evaluate the wait predicate
    | Asleep               // blocked on `cv_`
    | Popped(task: nat)    // unlocked, before `active_tasks_.fetch_add`
    | Running(task: nat)   // inside `task()`
    | Ran(task: nat)       // before `active_tasks_.fetch_sub`
    | Retired(task: nat)   // before `completed_.fetch_add`
    | Counted(task: nat)   // before `pending_count_.fetch_sub`
    | Exited

  datatype State<T> = State(
    tasks: seq<T>,         // tasks_
    stop: bool,            // stop_
    pendingCount: int,     // pending_count_
    activeTasks: int,      // active_tasks_
    completed: int,        // completed_
    workers: seq<Worker>,
    inEnqueue: bool,       // an enqueuer holds `mux_`, task pushed, not yet counted
    owed: nat,             // enqueuers that still owe their `notify_one`
    owedAll: bool,         // the destructor still owes its `notify_all`
    accepted: seq<T>,      // history: tasks pushed
    taken: seq<T>,         // history: tasks popped
    finished: seq<nat>)    // history: bodies that returned, in that order

  datatype Action<T> =
    | Push(t: T)                       // enqueue: lock, test stop_, push
    | Refuse                           // enqueue: lock, stop_ is set, throw
    | CountPending                     // enqueue: pending_count_.fetch_add, unlock
    | NotifyOne(woken: Option<nat>)    // enqueue: cv_.notify_one
    | WakeSpuriously(w: nat)
    | Check(w: nat)                    // lock, wait predicate, pop or leave
    | Begin(w: nat)
    | EndBody(w: nat)
    | Retire(w: nat)
    | Complete(w: nat)
    | Release(w: nat)
    | Stop                             // destructor: lock, stop_ = true
    | NotifyAll                        // destructor: cv_.notify_all

  /** `num_threads_`: the argument, else the hardware count, else four. */
  function ThreadCount(requested: nat, hardware: nat): (n: nat)
    ensures n >= 1
    ensures requested > 0 ==> n == requested
    ensures requested == 0 && hardware > 0 ==> n == hardware
    ensures requested == 0 && hardware == 0 ==> n == 4
  {
    if requested > 0 then requested else if hardware > 0 then hardware else 4
  }

  function Init<T>(n: nat): State<T>
  {
    State([], false, 0, 0, 0, seq(n, _ => Checking), false, 0, false, [], [], [])
  }

  predicate HasTask(w: Worker) { w.Popped? || w.Running? || w.Ran? || w.Retired? || w.Counted? }
  predicate IsActive(w: Worker) { w.Running? || w.Ran? }
  predicate IsUncounted(w: Worker) { w.Popped? || w.Running? || w.Ran? || w.Retired? }
  predicate IsUnfinished(w: Worker) { w.Popped? || w.Running? }
  predicate InWindow(w: Worker) { w.Popped? }
  predicate IsAwake(w: Worker) { !w.Asleep? && !w.Exited? }
  predicate IsChecking(w: Worker) { w.Checking? }

  predicate AnyAsleep(ws: seq<Worker>) { exists w :: 0 <= w < |ws| && ws[w].Asleep? }

  predicate Enabled<T(!new)>(s: State<T>, a: Action<T>)
  {
    match a
    case Push(_) => !s.inEnqueue && !s.stop
    case Refuse => !s.inEnqueue && s.stop
    case CountPending => s.inEnqueue
    case NotifyOne(woken) =>
      s.owed > 0 && (match woken
                     case Some(w) => w < |s.workers| && s.workers[w].Asleep?
                     case None => !AnyAsleep(s.workers))
    case WakeSpuriously(w) => w < |s.workers| && s.workers[w].Asleep?
    case Check(w) => !s.inEnqueue && w < |s.workers| && s.workers[w].Checking?
    case Begin(w) => w < |s.workers| && s.workers[w].Popped?
    case EndBody(w) => w < |s.workers| && s.workers[w].Running?
    case Retire(w) => w < |s.workers| && s.workers[w].Ran?
    case Complete(w) => w < |s.workers| && s.workers[w].Retired?
    case Release(w) => w < |s.workers| && s.workers[w].Counted?
    case Stop => !s.inEnqueue && !s.stop
    case NotifyAll => s.owedAll
  }

  function Woken(w: Worker): Worker { if w.Asleep? then Checking else w }

  function Apply<T(!new)>(s: State<T>, a: Action<T>): State<T>
    requires Enabled(s, a)
  {
    match a
    case Push(t) => s.(tasks := s.tasks + [t], accepted := s.accepted + [t], inEnqueue := true)
    case Refuse => s
    case CountPending => s.(pendingCount := s.pendingCount + 1, inEnqueue := false, owed := s.owed + 1)
    case NotifyOne(woken) =>
      (match woken
       case Some(w) => s.(owed := s.owed - 1, workers := s.workers[w := Checking])
       case None => s.(owed := s.owed - 1))
    case WakeSpuriously(w) => s.(workers := s.workers[w := Checking])
    case Check(w) =>
      if s.tasks != [] then
        s.(tasks := s.tasks[1..], taken := s.taken + [s.tasks[0]], workers := s.workers[w := Popped(|s.taken|)])
      else
        s.(workers := s.workers[w := if s.stop then Exited else Asleep])
    case Begin(w) =>
      s.(activeTasks := s.activeTasks + 1, workers := s.workers[w := Running(s.workers[w].task)])
    case EndBody(w) =>
      s.(finished := s.finished + [s.workers[w].task], workers := s.workers[w := Ran(s.workers[w].task)])
    case Retire(w) =>
      s.(activeTasks := s.activeTasks - 1, workers := s.workers[w := Retired(s.workers[w].task)])
    case Complete(w) =>
      s.(completed := s.completed + 1, workers := s.workers[w := Counted(s.workers[w].task)])
    case Release(w) =>
      s.(pendingCount := s.pendingCount - 1, workers := s.workers[w := Checking])
    case Stop => s.(stop := true, owedAll := true)
    case NotifyAll =>
      s.(owedAll := false,
         workers := seq(|s.workers|, i requires 0 <= i < |s.workers| => Woken(s.workers[i])))
  }

  // ---------------------------------------------------------------- counting

  function Count(ws: seq<Worker>, p: Worker -> bool): nat
  {
    if ws == [] then 0 else (if p(ws[0]) then 1 else 0) + Count(ws[1..], p)
  }

  lemma {:induction false} CountUpdate(ws: seq<Worker>, i: nat, v: Worker, p: Worker -> bool)
    requires i < |ws|
    ensures Count(ws[i := v], p) == Count(ws, p) - (if p(ws[i]) then 1 else 0) + (if p(v) then 1 else 0)
  {
    if i == 0 {
      assert ws[i := v][1..] == ws[1..];
    } else {
      assert ws[i := v][1..] == ws[1..][i - 1 := v];
      CountUpdate(ws[1..], i - 1, v, p);
    }
  }

  lemma {:induction false} CountSame(ws: seq<Worker>, vs: seq<Worker>, p: Worker -> bool)
    requires |ws| == |vs| && forall i :: 0 <= i < |ws| ==> p(ws[i]) == p(vs[i])
    ensures Count(ws, p) == Count(vs, p)
  {
    if ws != [] {
      CountSame(ws[1..], vs[1..], p);
    }
  }

  lemma {:induction false} CountNone(ws: seq<Worker>, p: Worker -> bool)
    ensures Count(ws, p) == 0 <==> forall i :: 0 <= i < |ws| ==> !p(ws[i])
  {
    if ws != [] {
      var rest := ws[1..];
      CountNone(rest, p);
      assert forall i :: 0 <= i < |rest| ==> rest[i] == ws[i + 1];
      assert forall i :: 1 <= i < |ws| ==> ws[i] == rest[i - 1];
    }
  }

  // -------------------------------------------------------------- invariants

  /** Each counter is what its name says, at every instant. */
  ghost predicate CountersInv<T>(s: State<T>)
  {
    && s.pendingCount == |s.tasks| + Count(s.workers, HasTask) - (if s.inEnqueue then 1 else 0)
    && s.activeTasks == Count(s.workers, IsActive)
    && s.completed == |s.taken| - Count(s.workers, IsUncounted) >= 0
    && |s.taken| == |s.finished| + Count(s.workers, IsUnfinished)
    && (s.inEnqueue ==> s.tasks != [])
  }

  /** First in, first out. */
  ghost predicate OrderInv<T(!new)>(s: State<T>)
  {
    s.taken + s.tasks == s.accepted
  }

  ghost predicate IsHolder<T>(s: State<T>, w: nat, j: nat)
  {
    w < |s.workers| && IsUnfinished(s.workers[w]) && s.workers[w].task == j
  }

  ghost predicate HasHolder<T>(s: State<T>, j: nat)
  {
    exists w :: IsHolder(s, w, j)
  }

  /** Every popped task is finished or in exactly one pair of hands. */
  ghost predicate OnceInv<T>(s: State<T>)
  {
    && NoDup(s.finished)
    && (forall i :: 0 <= i < |s.finished| ==> s.finished[i] < |s.taken|)
    && (forall w :: 0 <= w < |s.workers| && HasTask(s.workers[w]) ==> s.workers[w].task < |s.taken|)
    && (forall w :: 0 <= w < |s.workers| && IsUnfinished(s.workers[w]) ==> s.workers[w].task !in s.finished)
    && (forall v, w :: 0 <= v < w < |s.workers| && IsUnfinished(s.workers[v]) && IsUnfinished(s.workers[w])
                       ==> s.workers[v].task != s.workers[w].task)
    && (forall j :: 0 <= j < |s.taken| ==> j in s.finished || HasHolder(s, j))
  }

  ghost predicate SomeAwake(ws: seq<Worker>) { exists w :: 0 <= w < |ws| && IsAwake(ws[w]) }

  /** Queued work is never stranded, and a stopped pool lets nobody sleep on. */
  ghost predicate WakeInv<T>(s: State<T>)
  {
    && |s.workers| >= 1
    && (s.tasks != [] ==> s.inEnqueue || s.owed > 0 || SomeAwake(s.workers))
    && (forall w :: 0 <= w < |s.workers| && s.workers[w].Exited? ==> s.stop && s.tasks == [])
    && (forall w :: 0 <= w < |s.workers| && s.workers[w].Asleep? && s.stop ==> s.owedAll)
    && (s.inEnqueue ==> !s.stop)
    && (s.owedAll ==> s.stop)
  }

  /** While somebody sleeps, no queued task lacks a worker on its way or a notification
      still to come. */
  ghost predicate ParallelInv<T>(s: State<T>)
  {
    AnyAsleep(s.workers) ==> |s.tasks| <= Count(s.workers, IsChecking) + s.owed + (if s.inEnqueue then 1 else 0)
  }

  ghost predicate Inv<T(!new)>(s: State<T>)
  {
    CountersInv(s) && OrderInv(s) && OnceInv(s) && WakeInv(s) && ParallelInv(s)
  }

  lemma InitInv<T(!new)>(n: nat)
    requires n >= 1
    ensures Inv(Init<T>(n))
  {
    var s := Init<T>(n);
    CountNone(s.workers, HasTask);
    CountNone(s.workers, IsActive);
    CountNone(s.workers, IsUncounted);
    CountNone(s.workers, IsUnfinished);
    assert IsAwake(s.workers[0]);
  }

  /** The worker whose program counter the action moves, if any. */
  function Mover<T>(a: Action<T>): Option<nat>
  {
    match a
    case NotifyOne(woken) => woken
    case WakeSpuriously(w) => Some(w)
    case Check(w) => Some(w)
    case Begin(w) => Some(w)
    case EndBody(w) => Some(w)
    case Retire(w) => Some(w)
    case Complete(w) => Some(w)
    case Release(w) => Some(w)
    case _ => None
  }

  /** A step that replaces one worker's position. */
  lemma CountersMove<T(!new)>(s: State<T>, a: Action<T>)
    requires CountersInv(s) && Enabled(s, a) && Mover(a).Some?
    ensures CountersInv(Apply(s, a))
  {
    hide Count;
    var s' := Apply(s, a);
    var w := Mover(a).value;
    var v := s'.workers[w];
    assert s'.workers == s.workers[w := v];
    CountUpdate(s.workers, w, v, HasTask);
    CountUpdate(s.workers, w, v, IsActive);
    CountUpdate(s.workers, w, v, IsUncounted);
    CountUpdate(s.workers, w, v, IsUnfinished);
  }

  lemma CountersStep<T(!new)>(s: State<T>, a: Action<T>)
    requires CountersInv(s) && Enabled(s, a)
    ensures CountersInv(Apply(s, a))
  {
    hide Count;
    if Mover(a).Some? {
      CountersMove(s, a);
    } else {
      var s' := Apply(s, a);
      CountSame(s.workers, s'.workers, HasTask);
      CountSame(s.workers, s'.workers, IsActive);
      CountSame(s.workers, s'.workers, IsUncounted);
      CountSame(s.workers, s'.workers, IsUnfinished);
    }
  }

  lemma OrderStep<T(!new)>(s: State<T>, a: Action<T>)
    requires OrderInv(s) && Enabled(s, a)
    ensures OrderInv(Apply(s, a))
  {
    if a.Check? && s.tasks != [] {
      assert s.taken + [s.tasks[0]] + s.tasks[1..] == s.taken + s.tasks;
    }
    if a.Push? {
      assert s.taken + (s.tasks + [a.t]) == (s.taken + s.tasks) + [a.t];
    }
  }

  /** A step that moves no task between "unfinished" and "finished". */
  lemma OnceKept<T(!new)>(s: State<T>, s': State<T>)
    requires OnceInv(s)
    requires s'.taken == s.taken && s'.finished == s.finished && |s'.workers| == |s.workers|
    requires forall i :: 0 <= i < |s.workers| ==>
               && (IsUnfinished(s'.workers[i]) <==> IsUnfinished(s.workers[i]))
               && (HasTask(s'.workers[i]) ==> HasTask(s.workers[i]) && s'.workers[i].task == s.workers[i].task)
    ensures OnceInv(s')
  {
    forall j | 0 <= j < |s'.taken| ensures j in s'.finished || HasHolder(s', j) {
      if j !in s.finished {
        var w :| IsHolder(s, w, j);
        assert IsHolder(s', w, j);
      }
    }
  }

  lemma OncePop<T(!new)>(s: State<T>, w: nat)
    requires OnceInv(s) && Enabled(s, Check(w)) && s.tasks != []
    ensures OnceInv(Apply(s, Check(w)))
  {
    var s' := Apply(s, Check(w));
    forall j | 0 <= j < |s'.taken| ensures j in s'.finished || HasHolder(s', j) {
      if j == |s.taken| {
        assert IsHolder(s', w, j);
      } else if j !in s.finished {
        var v :| IsHolder(s, v, j);
        assert IsHolder(s', v, j);
      }
    }
  }

  lemma OnceFinish<T(!new)>(s: State<T>, w: nat)
    requires OnceInv(s) && Enabled(s, EndBody(w))
    ensures OnceInv(Apply(s, EndBody(w)))
  {
    var s' := Apply(s, EndBody(w));
    var done := s.workers[w].task;
    forall j | 0 <= j < |s'.taken| ensures j in s'.finished || HasHolder(s', j) {
      if j == done {
        assert s'.finished[|s.finished|] == done;
      } else if j in s.finished {
        var k :| 0 <= k < |s.finished| && s.finished[k] == j;
        assert s'.finished[k] == j;
      } else {
        var v :| IsHolder(s, v, j);
        assert IsHolder(s', v, j);
      }
    }
  }

  lemma OnceStep<T(!new)>(s: State<T>, a: Action<T>)
    requires OnceInv(s) && Enabled(s, a)
    ensures OnceInv(Apply(s, a))
  {
    if a.Check? && s.tasks != [] {
      OncePop(s, a.w);
    } else if a.EndBody? {
      OnceFinish(s, a.w);
    } else {
      hide OnceInv;
      OnceKept(s, Apply(s, a));
    }
  }

  lemma WakeMove<T(!new)>(s: State<T>, a: Action<T>)
    requires WakeInv(s) && Enabled(s, a) && Mover(a).Some?
    ensures WakeInv(Apply(s, a))
  {
    var s' := Apply(s, a);
    if s'.tasks != [] {
      assert IsAwake(s'.workers[Mover(a).value]);
    }
  }

  /** A step that wakes somebody or nobody, and moves no worker's program counter. */
  lemma WakeKept<T(!new)>(s: State<T>, a: Action<T>)
    requires WakeInv(s) && Enabled(s, a) && Mover(a).None?
    ensures WakeInv(Apply(s, a))
  {
    var s' := Apply(s, a);
    if s'.tasks != [] && !s'.inEnqueue && s'.owed == 0 {
      if a.NotifyOne? {
        assert IsAwake(s'.workers[0]);
      } else {
        var v :| 0 <= v < |s.workers| && IsAwake(s.workers[v]);
        assert IsAwake(s'.workers[v]);
      }
    }
  }

  lemma WakeStep<T(!new)>(s: State<T>, a: Action<T>)
    requires WakeInv(s) && Enabled(s, a)
    ensures WakeInv(Apply(s, a))
  {
    hide WakeInv, Enabled, Apply;
    if Mover(a).Some? {
      WakeMove(s, a);
    } else {
      WakeKept(s, a);
    }
  }

  lemma ParallelStep<T(!new)>(s: State<T>, a: Action<T>)
    requires ParallelInv(s) && Enabled(s, a)
    ensures ParallelInv(Apply(s, a))
  {
    hide Count;
    var s' := Apply(s, a);
    if Mover(a).Some? {
      var w := Mover(a).value;
      assert s'.workers == s.workers[w := s'.workers[w]];
      CountUpdate(s.workers, w, s'.workers[w], IsChecking);
      if AnyAsleep(s'.workers) && s'.tasks != [] {
        var v :| 0 <= v < |s'.workers| && s'.workers[v].Asleep?;
        assert s.workers[v].Asleep?;
      }
    }
  }

  lemma Step<T(!new)>(s: State<T>, a: Action<T>)
    requires Inv(s) && Enabled(s, a)
    ensures Inv(Apply(s, a))
  {
    hide CountersInv, OrderInv, OnceInv, WakeInv, ParallelInv, Enabled, Apply;
    CountersStep(s, a);
    OrderStep(s, a);
    OnceStep(s, a);
    WakeStep(s, a);
    ParallelStep(s, a);
  }

  // -------------------------------------------------------------- whole runs

  predicate RunOk<T(!new)>(s: State<T>, acts: seq<Action<T>>)
    decreases |acts|
  {
    acts == [] || (Enabled(s, acts[0]) && RunOk(Apply(s, acts[0]), acts[1..]))
  }

  function Exec<T(!new)>(s: State<T>, acts: seq<Action<T>>): State<T>
    requires RunOk(s, acts)
    decreases |acts|
  {
    if acts == [] then s else Exec(Apply(s, acts[0]), acts[1..])
  }

  lemma {:induction false} RunKeepsInv<T(!new)>(s: State<T>, acts: seq<Action<T>>)
    requires Inv(s) && RunOk(s, acts)
    ensures Inv(Exec(s, acts))
    decreases |acts|
  {
    hide Inv, Enabled, Apply;
    if acts != [] {
      Step(s, acts[0]);
      RunKeepsInv(Apply(s, acts[0]), acts[1..]);
    }
  }

  ghost predicate Reachable<T(!new)>(s: State<T>, n: nat, acts: seq<Action<T>>)
  {
    RunOk(Init<T>(n), acts) && s == Exec(Init<T>(n), acts)
  }

  lemma ReachableInv<T(!new)>(s: State<T>, n: nat, acts: seq<Action<T>>)
    requires n >= 1 && Reachable(s, n, acts)
    ensures Inv(s)
  {
    InitInv<T>(n);
    RunKeepsInv(Init<T>(n), acts);
  }

  /** `pending_count_`, `active_tasks_` and `completed_` in every reachable state;
      none of them is ever negative. */
  lemma PoolCounters<T(!new)>(s: State<T>, n: nat, acts: seq<Action<T>>)
    requires n >= 1 && Reachable(s, n, acts)
    ensures !s.inEnqueue ==> s.pendingCount == |s.tasks| + Count(s.workers, HasTask)
    ensures s.activeTasks == Count(s.workers, IsActive)
    ensures s.completed == |s.accepted| - |s.tasks| - Count(s.workers, IsUncounted)
    ensures s.pendingCount >= 0 && s.activeTasks >= 0 && s.completed >= 0
  {
    ReachableInv(s, n, acts);
    assert |s.accepted| == |s.taken| + |s.tasks|;
  }

  /** Work in the queue always has somebody to take it: a live worker that is not
      asleep, or an enqueuer that has not yet sent its notification. After
      `notify_all` of the destructor nobody is asleep at all. */
  lemma NoLostWakeup<T(!new)>(s: State<T>, n: nat, acts: seq<Action<T>>)
    requires n >= 1 && Reachable(s, n, acts)
    ensures s.tasks != [] ==> s.inEnqueue || s.owed > 0 || SomeAwake(s.workers)
    ensures s.stop && !s.owedAll ==> !AnyAsleep(s.workers)
  {
    ReachableInv(s, n, acts);
  }

  /** And the pool is used in full: while any worker sleeps, every queued task has a
      worker of its own on its way to the queue, or a notification still to come. */
  lemma NobodySleepsOnWork<T(!new)>(s: State<T>, n: nat, acts: seq<Action<T>>)
    requires n >= 1 && Reachable(s, n, acts) && AnyAsleep(s.workers)
    ensures |s.tasks| <= Count(s.workers, IsChecking) + s.owed + (if s.inEnqueue then 1 else 0)
  {
    ReachableInv(s, n, acts);
  }

  predicate AllExited(ws: seq<Worker>) { forall w :: 0 <= w < |ws| ==> ws[w].Exited? }

  lemma ExitedMeansDone<T(!new)>(s: State<T>)
    requires Inv(s) && AllExited(s.workers)
    ensures s.stop && s.tasks == [] && s.taken == s.accepted
    ensures forall j :: 0 <= j < |s.accepted| <==> j in s.finished
    ensures s.completed == |s.accepted| && s.pendingCount == 0 && s.activeTasks == 0
  {
    assert s.workers[0].Exited?;
    CountNone(s.workers, HasTask);
    CountNone(s.workers, IsActive);
    CountNone(s.workers, IsUncounted);
    forall j | 0 <= j < |s.taken| ensures j in s.finished {
      assert !HasHolder(s, j);
    }
  }

  /** Once every worker has left: each accepted task ran exactly once, tasks were
      popped in submission order, nothing is queued, and the counters agree. */
  lemma PoolShutdown<T(!new)>(s: State<T>, n: nat, acts: seq<Action<T>>)
    requires n >= 1 && Reachable(s, n, acts) && AllExited(s.workers)
    ensures s.stop && s.tasks == [] && s.taken == s.accepted
    ensures NoDup(s.finished)
    ensures forall j :: 0 <= j < |s.accepted| <==> j in s.finished
    ensures s.completed == |s.accepted| && s.pendingCount == 0 && s.activeTasks == 0
  {
    ReachableInv(s, n, acts);
    ExitedMeansDone(s);
  }

  // ------------------------------------------------------------------- drain

  /** The predicate `drain` waits for. */
  ghost predicate DrainReady<T(!new)>(s: State<T>) { s.tasks == [] && s.activeTasks == 0 }

  lemma {:induction false} CountSplit(ws: seq<Worker>)
    ensures Count(ws, IsUnfinished) <= Count(ws, InWindow) + Count(ws, IsActive)
    ensures Count(ws, InWindow) <= Count(ws, IsUnfinished)
  {
    if ws != [] {
      CountSplit(ws[1..]);
    }
  }

  /** What `drain` really waits for: when its predicate holds, the accepted tasks
      whose body has not returned are exactly those held by workers between the
      pop and the increment of `active_tasks_`. So everything accepted is done
      exactly when no worker is in that window. */
  lemma DrainMeaning<T(!new)>(s: State<T>, n: nat, acts: seq<Action<T>>)
    requires n >= 1 && Reachable(s, n, acts) && DrainReady(s)
    ensures |s.accepted| - |s.finished| == Count(s.workers, InWindow)
    ensures (forall j :: 0 <= j < |s.accepted| ==> j in s.finished) <==> Count(s.workers, InWindow) == 0
  {
    ReachableInv(s, n, acts);
    CountSplit(s.workers);
    assert s.taken == s.accepted;
    CountNone(s.workers, InWindow);
    CountNone(s.workers, IsActive);
    if Count(s.workers, InWindow) == 0 {
      forall j | 0 <= j < |s.accepted| ensures j in s.finished {
        assert !HasHolder(s, j);
      }
    } else {
      var w :| 0 <= w < |s.workers| && InWindow(s.workers[w]);
      assert s.workers[w].task !in s.finished;
    }
  }

  lemma {:induction false} CountUnfinished(ws: seq<Worker>)
    ensures Count(ws, IsUnfinished) <= Count(ws, HasTask)
  {
    if ws != [] {
      CountUnfinished(ws[1..]);
    }
  }

  /** The test a caller has instead: when `pending_count()` reads zero, every accepted
      task has finished, save one that an enqueuer has pushed and not yet counted. */
  lemma PendingZero<T(!new)>(s: State<T>, n: nat, acts: seq<Action<T>>)
    requires n >= 1 && Reachable(s, n, acts) && s.pendingCount == 0
    ensures |s.accepted| - |s.finished| == if s.inEnqueue then 1 else 0
    ensures !s.inEnqueue ==> forall j :: 0 <= j < |s.accepted| ==> j in s.finished
  {
    ReachableInv(s, n, acts);
    CountUnfinished(s.workers);
    assert |s.accepted| == |s.taken| + |s.tasks|;
    CountNone(s.workers, IsUnfinished);
    if !s.inEnqueue {
      forall j | 0 <= j < |s.accepted| ensures j in s.finished {
        assert !HasHolder(s, j);
      }
    }
  }

  /** `drain` is documented to wait for every submitted task. It does not: with one
      worker, after one task is submitted and popped, it may return at once. */
  lemma DrainTooEarly<T(!new)>(t: T) returns (s: State<T>, acts: seq<Action<T>>)
    ensures Reachable(s, 1, acts)
    ensures DrainReady(s)
    ensures s.accepted == [t] && s.finished == []
  {
    acts := [Push(t), CountPending, Check(0)];
    var s0 := Init<T>(1);
    var s1 := Apply(s0, Push(t));
    var s2 := Apply(s1, CountPending);
    s := Apply(s2, Check(0));
    assert acts[1..][1..][1..] == [];
    assert RunOk(s, []) && RunOk(s2, acts[1..][1..]) && RunOk(s1, acts[1..]);
    assert Exec(s2, acts[1..][1..]) == s && Exec(s1, acts[1..]) == s;
  }

  // ---------------------------------------------------- the destructor's join

  function Rank(w: Worker): nat
  {
    match w
    case Exited => 0
    case Checking => 1
    case Asleep => 2
    case Counted(_) => 2
    case Retired(_) => 3
    case Ran(_) => 4
    case Running(_) => 5
    case Popped(_) => 6
  }

  /** How many steps a stopped pool can still take. */
  function StepsLeft<T>(s: State<T>): nat { 6 * |s.tasks| + Sum(s.workers, Rank) + s.owed }

  predicate Stopping<T>(s: State<T>) { s.stop && !s.owedAll }

  lemma StoppingStep<T(!new)>(s: State<T>, a: Action<T>)
    requires Inv(s) && Stopping(s) && Enabled(s, a) && !a.Refuse?
    ensures Stopping(Apply(s, a)) && StepsLeft(Apply(s, a)) < StepsLeft(s)
  {
    hide Sum, CountersInv, OrderInv, OnceInv;
    var s' := Apply(s, a);
    if Mover(a).Some? {
      var w := Mover(a).value;
      SumUpdate(s.workers, w, s'.workers[w], Rank);
      assert s'.workers == s.workers[w := s'.workers[w]];
    }
  }

  /** After `stop_` and `notify_all`, every schedule is finite: no more than
      `StepsLeft` steps, refused enqueues aside, whatever their order. */
  lemma {:induction false} ShutdownIsFinite<T(!new)>(s: State<T>, acts: seq<Action<T>>)
    requires Inv(s) && Stopping(s) && RunOk(s, acts)
    requires forall i :: 0 <= i < |acts| ==> !acts[i].Refuse?
    ensures |acts| <= StepsLeft(s)
    decreases |acts|
  {
    hide Inv, StepsLeft, Stopping, Enabled, Apply;
    if acts != [] {
      assert !acts[0].Refuse?;
      StoppingStep(s, acts[0]);
      Step(s, acts[0]);
      ShutdownIsFinite(Apply(s, acts[0]), acts[1..]);
    }
  }

  /** And it does not get stuck: until all workers have left, one of them can move. */
  lemma ShutdownProgress<T(!new)>(s: State<T>) returns (a: Action<T>)
    requires Inv(s) && Stopping(s) && !AllExited(s.workers)
    ensures Enabled(s, a) && Mover(a).Some? && !a.NotifyOne? && !a.WakeSpuriously?
  {
    var w :| 0 <= w < |s.workers| && !s.workers[w].Exited?;
    a := Check(w);
    if s.workers[w].Popped? {
      a := Begin(w);
    } else if s.workers[w].Running? {
      a := EndBody(w);
    } else if s.workers[w].Ran? {
      a := Retire(w);
    } else if s.workers[w].Retired? {
      a := Complete(w);
    } else if s.workers[w].Counted? {
      a := Release(w);
    }
  }

  /** Nothing that the outside may do is ruled out: with the lock free, a task is accepted
      before the stop and refused after it, the destructor may stop a running pool, and a
      sleeping worker may wake up without being told. */
  lemma OutsideIsFree<T(!new)>(s: State<T>, t: T, w: nat)
    ensures !s.inEnqueue && !s.stop ==> Enabled(s, Push(t)) && Enabled(s, Stop) && !Enabled(s, Refuse)
    ensures !s.inEnqueue && s.stop ==> Enabled(s, Refuse) && !Enabled(s, Push(t))
    ensures w < |s.workers| && s.workers[w].Asleep? ==> Enabled(s, WakeSpuriously(w))
    ensures s.owed > 0 && w < |s.workers| && s.workers[w].Asleep? ==> Enabled(s, NotifyOne(Some(w)))
    ensures !s.inEnqueue && w < |s.workers| && s.workers[w].Checking? ==> Enabled(s, Check(w))
  {
  }

  /** The destructor gets there: from any running pool whose lock is free, setting the flag
      and notifying everybody leaves a stopping pool in which nobody sleeps and nothing of
      the work is lost. */
  lemma DestructorStops<T(!new)>(s: State<T>)
    requires Inv(s) && !s.inEnqueue && !s.stop
    ensures Enabled(s, Stop) && Enabled(Apply(s, Stop), NotifyAll)
    ensures var s' := Apply(Apply(s, Stop), NotifyAll);
            && Inv(s') && Stopping(s') && !AnyAsleep(s'.workers)
            && s'.tasks == s.tasks && s'.accepted == s.accepted && s'.taken == s.taken && s'.finished == s.finished
            && |s'.workers| == |s.workers|
            && forall w :: 0 <= w < |s.workers| && !s.workers[w].Asleep? ==> s'.workers[w] == s.workers[w]
  {
    Step(s, Stop);
    Step(Apply(s, Stop), NotifyAll);
    hide Inv;
  }
}
