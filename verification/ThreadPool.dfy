/** The `ThreadPool` object. Each method is one critical section or one atomic
    operation of the source; `model` is the state of the protocol that all threads
    drive together, and every method is proved to take exactly its action there. */
module ThreadPool {
  import opened P = PoolProtocol

  /** How the critical section of `worker_loop` ends. */
  datatype Wakeup<+T> = Leave | Wait | Run(task: T)

  class ThreadPool<T(!new)> {
    var tasks: seq<T>
    var stop: bool
    var pendingCount: int
    var activeTasks: int
    var completed: int
    ghost var model: State<T>

    /** The fields are those of the protocol state, and its invariant holds. */
    ghost predicate Valid()
      reads this
    {
      && tasks == model.tasks && stop == model.stop
      && pendingCount == model.pendingCount && activeTasks == model.activeTasks && completed == model.completed
      && Inv(model)
    }

    constructor (requested: nat, hardware: nat)
      ensures Valid() && model == Init<T>(ThreadCount(requested, hardware))
    {
      InitInv<T>(ThreadCount(requested, hardware));
      tasks, stop, pendingCount, activeTasks, completed := [], false, 0, 0, 0;
      model := Init<T>(ThreadCount(requested, hardware));
    }

    /** The critical section of `enqueue`: refused once the pool is stopping. */
    method Enqueue(t: T) returns (ok: bool)
      requires Valid() && !model.inEnqueue
      modifies this
      ensures Valid()
      ensures ok <==> !old(stop)
      ensures ok ==> model == Apply(Apply(old(model), Push(t)), CountPending) && tasks == old(tasks) + [t]
      ensures !ok ==> model == Apply(old(model), Refuse)
    {
      hide Inv;
      if stop {
        ok := false;
      } else {
        Step(model, Push(t));
        Step(Apply(model, Push(t)), CountPending);
        model := Apply(Apply(model, Push(t)), CountPending);
        tasks := tasks + [t];
        pendingCount := pendingCount + 1;
        ok := true;
      }
    }

    /** The critical section of `worker_loop`: leave, fall asleep, or take the oldest task. */
    method WaitAndPop(ghost w: nat) returns (r: Wakeup<T>)
      requires Valid() && Enabled(model, Check(w))
      modifies this
      ensures Valid() && model == Apply(old(model), Check(w))
      ensures r == if old(tasks) != [] then Run(old(tasks)[0]) else if stop then Leave else Wait
    {
      hide Inv;
      Step(model, Check(w));
      model := Apply(model, Check(w));
      if !stop && |tasks| == 0 {
        r := Wait;
      } else if stop && |tasks| == 0 {
        r := Leave;
      } else {
        r := Run(tasks[0]);
        tasks := tasks[1..];
      }
    }

    /** `active_tasks_.fetch_add(1)`. */
    method BeginTask(ghost w: nat)
      requires Valid() && Enabled(model, Begin(w))
      modifies this
      ensures Valid() && model == Apply(old(model), Begin(w))
    {
      hide Inv;
      Step(model, Begin(w));
      model := Apply(model, Begin(w));
      activeTasks := activeTasks + 1;
    }

    /** `active_tasks_.fetch_sub(1)`, which finds at least one active task. */
    method RetireTask(ghost w: nat)
      requires Valid() && Enabled(model, Retire(w))
      modifies this
      ensures Valid() && model == Apply(old(model), Retire(w))
      ensures 0 <= activeTasks == old(activeTasks) - 1
    {
      hide Inv;
      Step(model, Retire(w));
      model := Apply(model, Retire(w));
      activeTasks := activeTasks - 1;
      CountersNonNegative(model);
    }

    /** `completed_.fetch_add(1)`. */
    method CountCompleted(ghost w: nat)
      requires Valid() && Enabled(model, Complete(w))
      modifies this
      ensures Valid() && model == Apply(old(model), Complete(w))
    {
      hide Inv;
      Step(model, Complete(w));
      model := Apply(model, Complete(w));
      completed := completed + 1;
    }

    /** `pending_count_.fetch_sub(1)`, which finds at least one pending task. */
    method ReleaseTask(ghost w: nat)
      requires Valid() && Enabled(model, Release(w))
      modifies this
      ensures Valid() && model == Apply(old(model), Release(w))
      ensures 0 <= pendingCount == old(pendingCount) - 1
    {
      hide Inv;
      Step(model, Release(w));
      model := Apply(model, Release(w));
      pendingCount := pendingCount - 1;
      CountersNonNegative(model);
    }

    /** The critical section of the destructor. */
    method RequestStop()
      requires Valid() && Enabled(model, Stop)
      modifies this
      ensures Valid() && model == Apply(old(model), Stop)
    {
      hide Inv;
      Step(model, Stop);
      model := Apply(model, Stop);
      stop := true;
    }

    /** The predicate of `drain`: what it tells the caller is what `DrainMeaning` says. */
    method DrainTest() returns (ready: bool)
      requires Valid()
      ensures ready <==> DrainReady(model)
      ensures ready ==> |model.accepted| - |model.finished| == Count(model.workers, InWindow)
    {
      ready := |tasks| == 0 && activeTasks == 0;
      CountSplit(model.workers);
      if ready {
        assert model.taken + [] == model.taken;
      }
    }

    /** What `worker_loop` does with a task it popped, when no other thread moves. */
    method RunPopped(ghost w: nat)
      requires Valid() && Enabled(model, Begin(w))
      modifies this
      ensures Valid() && |model.workers| == |old(model.workers)| && model.workers[w].Checking?
      ensures model == old(model).(
                completed := old(completed) + 1,
                pendingCount := old(pendingCount) - 1,
                finished := old(model.finished) + [old(model.workers[w].task)],
                workers := old(model.workers)[w := Checking])
    {
      hide Inv;
      BeginTask(w);
      // the task body runs here
      Step(model, EndBody(w));
      model := Apply(model, EndBody(w));
      RetireTask(w);
      CountCompleted(w);
      ReleaseTask(w);
      assert model.workers == old(model.workers)[w := Checking];
    }

    /** `worker_loop` of worker `w` during shutdown, when only `w` runs: it empties the
        queue, counts every task it took, and leaves. */
    method WorkerLoop(ghost w: nat)
      requires Valid() && Stopping(model) && Enabled(model, Check(w))
      modifies this
      ensures Valid() && |model.workers| == |old(model.workers)| && model.workers[w].Exited?
      ensures tasks == [] && model.accepted == old(model.accepted)
      ensures completed == old(completed) + |old(tasks)|
      ensures pendingCount == old(pendingCount) - |old(tasks)| && activeTasks == old(activeTasks)
      ensures forall v :: 0 <= v < |model.workers| && v != w ==> model.workers[v] == old(model.workers)[v]
    {
      hide Inv;
      while true
        invariant Valid() && Stopping(model) && Enabled(model, Check(w))
        invariant model.accepted == old(model.accepted) && |model.workers| == |old(model.workers)|
        invariant completed + |tasks| == old(completed) + |old(tasks)|
        invariant pendingCount - |tasks| == old(pendingCount) - |old(tasks)| && activeTasks == old(activeTasks)
        invariant forall v :: 0 <= v < |model.workers| && v != w ==> model.workers[v] == old(model.workers)[v]
        decreases |tasks|
      {
        var r := WaitAndPop(w);
        if !r.Run? {
          break;
        }
        RunPopped(w);
      }
    }
  }

  lemma CountersNonNegative<T(!new)>(s: State<T>)
    requires Inv(s)
    ensures s.pendingCount >= 0 && s.activeTasks >= 0 && s.completed >= 0
  {
  }
}
