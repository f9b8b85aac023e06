/** A server connection as a transition system: many threads in `send`, one chain
    of writes, one read loop, and any of them racing to close. One action is one
    critical section of `write_mux_`, one atomic operation on `closed_`, one start or
    completion of an asynchronous operation, or one call of `on_close_`.

    A call of `send` is known by its number. */
module ConnectionProtocol {
  import opened Common
  import opened Wire

  /** A `send` that found `closed_` set is `Dropped`; one that did not will push. */
  datatype SendPhase = Checked | Pushed | Dropped

  datatype State = State(
    closed: bool,           // closed_
    queue: seq<nat>,        // write_queue_
    writing: bool,          // writing_
    writers: nat,           // threads on their way into `do_write`
    inFlight: seq<nat>,     // writes handed to the socket and not completed
    failed: bool,           // a write completed with an error
    reading: bool,          // the read loop is alive
    callbacks: nat,         // threads that closed on an error and will call `on_close_`
    fired: nat,             // calls of `on_close_`
    closers: nat,           // threads that closed in `close()` and will close the socket
    socketCloses: nat,      // sockets closed by `close()`
    foundShut: nat,         // times `close()` found the socket already shut
    frames: seq<Bytes>,     // the data of each `send`
    phase: seq<SendPhase>,
    pushed: seq<nat>,       // history: order of insertion into `write_queue_`
    handed: seq<nat>)       // history: order of `async_write`

  datatype Action =
    | SendTest(frame: Bytes)
    | SendPush(send: nat)
    | StartWrite
    | WriteDone(i: nat)
    | WriteFailed(i: nat)
    | ReadFailed            // a read error, a bad header or a bad magic word
    | FireOnClose
    | Close
    | CloseSocket(open: bool)

  function Init(): State
  {
    State(false, [], false, 0, [], false, true, 0, 0, 0, 0, 0, [], [], [], [])
  }

  predicate Enabled(s: State, a: Action)
  {
    match a
    case SendTest(_) => true
    case SendPush(i) => i < |s.phase| && s.phase[i].Checked?
    case StartWrite => s.writers > 0
    case WriteDone(i) => i < |s.inFlight|
    case WriteFailed(i) => i < |s.inFlight|
    case ReadFailed => s.reading
    case FireOnClose => s.callbacks > 0
    case Close => true
    case CloseSocket(_) => s.closers > 0
  }

  /** The compare-and-swap of an error path. */
  function LoseConnection(s: State): State
  {
    if s.closed then s else s.(closed := true, callbacks := s.callbacks + 1)
  }

  function Apply(s: State, a: Action): State
    requires Enabled(s, a)
  {
    match a
    case SendTest(frame) =>
      s.(frames := s.frames + [frame], phase := s.phase + [if s.closed then Dropped else Checked])
    case SendPush(i) =>
      s.(queue := s.queue + [i],
         pushed := s.pushed + [i],
         phase := s.phase[i := Pushed],
         writing := true,
         writers := if s.writing then s.writers else s.writers + 1)
    case StartWrite =>
      if s.queue == [] then
        s.(writing := false, writers := s.writers - 1)
      else
        s.(queue := s.queue[1..],
           writers := s.writers - 1,
           inFlight := s.inFlight + [s.queue[0]],
           handed := s.handed + [s.queue[0]])
    case WriteDone(i) =>
      s.(inFlight := Without(s.inFlight, i), writers := s.writers + 1)
    case WriteFailed(i) =>
      LoseConnection(s).(inFlight := Without(s.inFlight, i), failed := true)
    case ReadFailed =>
      LoseConnection(s).(reading := false)
    case FireOnClose =>
      s.(callbacks := s.callbacks - 1, fired := s.fired + 1)
    case Close =>
      if s.closed then s else s.(closed := true, closers := s.closers + 1)
    case CloseSocket(open) =>
      if open then s.(closers := s.closers - 1, socketCloses := s.socketCloses + 1)
      else s.(closers := s.closers - 1, foundShut := s.foundShut + 1)
  }

  // -------------------------------------------------------------- invariants

  ghost predicate WriteInv(s: State)
  {
    && s.writers + |s.inFlight| + (if s.failed then 1 else 0) == (if s.writing then 1 else 0)
    && (s.failed ==> s.closed)
    && (s.queue != [] ==> s.writing)
    && s.pushed == s.handed + s.queue
    && NoDup(s.pushed)
    && |s.frames| == |s.phase|
    && (forall i :: 0 <= i < |s.pushed| ==> s.pushed[i] < |s.phase| && s.phase[s.pushed[i]].Pushed?)
    && (forall i :: 0 <= i < |s.phase| && s.phase[i].Pushed? ==> i in s.pushed)
    && (forall i :: 0 <= i < |s.phase| && s.phase[i].Dropped? ==> s.closed)
    && (s.inFlight != [] ==> s.handed != [] && s.inFlight[0] == s.handed[|s.handed| - 1])
  }

  ghost predicate CloseInv(s: State)
  {
    s.callbacks + s.fired + s.closers + s.socketCloses + s.foundShut == (if s.closed then 1 else 0)
  }

  ghost predicate Inv(s: State) { WriteInv(s) && CloseInv(s) }

  lemma InitInv()
    ensures Inv(Init())
  {
  }

  lemma WritePush(s: State, i: nat)
    requires WriteInv(s) && Enabled(s, SendPush(i))
    ensures WriteInv(Apply(s, SendPush(i)))
  {
    var s' := Apply(s, SendPush(i));
    NoDupSnoc(s.pushed, i);
    assert s.handed + (s.queue + [i]) == (s.handed + s.queue) + [i];
    assert s'.pushed[|s.pushed|] == i;
    forall d | 0 <= d < |s'.phase| && s'.phase[d].Pushed? && d != i ensures d in s'.pushed {
      assert s.phase[d].Pushed? && d in s.pushed;
    }
  }

  lemma WriteStart(s: State)
    requires WriteInv(s) && Enabled(s, StartWrite)
    ensures WriteInv(Apply(s, StartWrite))
  {
    if s.queue != [] {
      assert s.handed + [s.queue[0]] + s.queue[1..] == s.handed + s.queue;
    }
  }

  /** A step that leaves the queue and its histories alone. */
  lemma WriteKept(s: State, s': State)
    requires WriteInv(s)
    requires s'.queue == s.queue && s'.pushed == s.pushed && s'.handed == s.handed && s'.writing == s.writing
    requires s'.writers + |s'.inFlight| + (if s'.failed then 1 else 0)
          == s.writers + |s.inFlight| + (if s.failed then 1 else 0)
    requires s'.inFlight == s.inFlight || s'.inFlight == []
    requires (s'.failed || s.closed) ==> s'.closed
    requires |s.phase| <= |s'.phase| == |s'.frames|
    requires forall i :: 0 <= i < |s.phase| ==> s'.phase[i] == s.phase[i]
    requires forall i :: |s.phase| <= i < |s'.phase| ==> !s'.phase[i].Pushed? && (s'.phase[i].Dropped? ==> s'.closed)
    ensures WriteInv(s')
  {
    hide NoDup;
  }

  lemma WriteStep(s: State, a: Action)
    requires WriteInv(s) && Enabled(s, a)
    ensures WriteInv(Apply(s, a))
  {
    if a.SendPush? {
      WritePush(s, a.send);
    } else if a.StartWrite? {
      WriteStart(s);
    } else {
      assert |s.inFlight| <= 1 && (s.inFlight != [] ==> !s.failed) && (s.failed ==> s.closed);
      assert |s.frames| == |s.phase|;
      hide WriteInv;
      WriteKept(s, Apply(s, a));
    }
  }

  lemma Step(s: State, a: Action)
    requires Inv(s) && Enabled(s, a)
    ensures Inv(Apply(s, a))
  {
    hide WriteInv;
    WriteStep(s, a);
  }

  // -------------------------------------------------------------- whole runs

  predicate RunOk(s: State, acts: seq<Action>)
    decreases |acts|
  {
    acts == [] || (Enabled(s, acts[0]) && RunOk(Apply(s, acts[0]), acts[1..]))
  }

  function Exec(s: State, acts: seq<Action>): State
    requires RunOk(s, acts)
    decreases |acts|
  {
    if acts == [] then s else Exec(Apply(s, acts[0]), acts[1..])
  }

  lemma {:induction false} RunKeepsInv(s: State, acts: seq<Action>)
    requires Inv(s) && RunOk(s, acts)
    ensures Inv(Exec(s, acts))
    decreases |acts|
  {
    hide Inv, Enabled, Apply;
    if acts != [] {
      Step(s, acts[0]);
      RunKeepsInv(Apply(s, acts[0]), acts[1..]);
    }
  }

  ghost predicate Reachable(s: State, acts: seq<Action>)
  {
    RunOk(Init(), acts) && s == Exec(Init(), acts)
  }

  lemma ReachableInv(s: State, acts: seq<Action>)
    requires Reachable(s, acts)
    ensures Inv(s)
  {
    hide Inv, Enabled, Apply, Init;
    InitInv();
    RunKeepsInv(Init(), acts);
  }

  /** At most one write is outstanding; `writing_` is set exactly while a write token
      exists or after a write failed; a failed write closed the connection; frames
      reach the socket at most once, in the order they were pushed. */
  lemma ServerWriteQueue(s: State, acts: seq<Action>)
    requires Reachable(s, acts)
    ensures |s.inFlight| <= 1
    ensures s.writing <==> s.writers + |s.inFlight| == 1 || s.failed
    ensures s.failed ==> s.closed
    ensures s.handed <= s.pushed && s.pushed == s.handed + s.queue && NoDup(s.pushed)
  {
    hide Reachable;
    ReachableInv(s, acts);
  }

  /** After a write error the connection never hands the socket another frame. */
  lemma {:induction false} NothingAfterFailure(s: State, acts: seq<Action>)
    requires Inv(s) && s.failed && RunOk(s, acts)
    ensures Exec(s, acts).failed && Exec(s, acts).handed == s.handed && Exec(s, acts).inFlight == []
    decreases |acts|
  {
    if acts != [] {
      Step(s, acts[0]);
      NothingAfterFailure(Apply(s, acts[0]), acts[1..]);
    }
  }

  /** Closing happens exactly once: a connection is closed when one thread has won the
      swap, and that thread calls `on_close_`, or closes the socket, or finds it shut. So a
      closed connection on which nobody is still at it had one of the three, and none had
      two. */
  lemma ClosedOnce(s: State, acts: seq<Action>)
    requires Reachable(s, acts)
    ensures s.callbacks + s.fired + s.closers + s.socketCloses + s.foundShut == (if s.closed then 1 else 0)
    ensures s.closed && s.callbacks == 0 && s.closers == 0 ==> s.fired + s.socketCloses + s.foundShut == 1
    ensures s.fired + s.socketCloses <= 1
  {
    hide Reachable;
    ReachableInv(s, acts);
  }

  function Tally(acts: seq<Action>, a: Action): nat
  {
    if acts == [] then 0 else (if acts[0] == a then 1 else 0) + Tally(acts[1..], a)
  }

  lemma TallyStep(s: State, a: Action)
    requires Enabled(s, a)
    ensures var s' := Apply(s, a);
            && s'.fired == s.fired + (if a == FireOnClose then 1 else 0)
            && s'.socketCloses == s.socketCloses + (if a == CloseSocket(true) then 1 else 0)
            && s'.foundShut == s.foundShut + (if a == CloseSocket(false) then 1 else 0)
  {
  }

  /** The three counts are what they say: calls of `on_close_`, closes of an open socket,
      and sockets found shut, in every run. */
  lemma {:induction false} ClosingTally(s: State, acts: seq<Action>)
    requires RunOk(s, acts)
    ensures var e := Exec(s, acts);
            && e.fired == s.fired + Tally(acts, FireOnClose)
            && e.socketCloses == s.socketCloses + Tally(acts, CloseSocket(true))
            && e.foundShut == s.foundShut + Tally(acts, CloseSocket(false))
    decreases |acts|
  {
    hide Enabled, Apply;
    if acts != [] {
      TallyStep(s, acts[0]);
      ClosingTally(Apply(s, acts[0]), acts[1..]);
    }
  }

  // ------------------------------------------------ closed and open connections

  lemma PushedStays(s: State, a: Action, i: nat)
    requires Enabled(s, a) && i < |s.phase| && s.phase[i].Dropped? && i !in s.pushed
    ensures var s' := Apply(s, a); i < |s'.phase| && s'.phase[i].Dropped? && i !in s'.pushed
  {
  }

  lemma {:induction false} DroppedForever(s: State, acts: seq<Action>, i: nat)
    requires RunOk(s, acts) && i < |s.phase| && s.phase[i].Dropped? && i !in s.pushed
    ensures i !in Exec(s, acts).pushed
    decreases |acts|
  {
    hide Enabled, Apply;
    if acts != [] {
      PushedStays(s, acts[0], i);
      DroppedForever(Apply(s, acts[0]), acts[1..], i);
    }
  }

  /** A `send` on a closed connection sends nothing, ever; on an open one it may push its
      frame, whatever happens to the connection in between. */
  lemma SendTakesEffect(s: State, frame: Bytes, acts: seq<Action>)
    requires Inv(s) && Enabled(s, SendTest(frame)) && RunOk(Apply(s, SendTest(frame)), acts)
    ensures s.closed ==> |s.frames| !in Exec(Apply(s, SendTest(frame)), acts).pushed
    ensures !s.closed ==> Enabled(Apply(s, SendTest(frame)), SendPush(|s.frames|))
    ensures Apply(s, SendTest(frame)).frames == s.frames + [frame]
  {
    var t := Apply(s, SendTest(frame));
    if s.closed {
      DroppedForever(t, acts, |s.frames|);
    }
  }

  /** Nothing that the outside may do is ruled out: threads send and close at any time, an
      outstanding read may fail, and an outstanding write may complete or fail. */
  lemma OutsideIsFree(s: State, frame: Bytes)
    ensures Enabled(s, SendTest(frame)) && Enabled(s, Close)
    ensures s.reading ==> Enabled(s, ReadFailed)
    ensures s.inFlight != [] ==> Enabled(s, WriteDone(0)) && Enabled(s, WriteFailed(0))
    ensures s.closers > 0 ==> Enabled(s, CloseSocket(true)) && Enabled(s, CloseSocket(false))
    ensures s.callbacks > 0 ==> Enabled(s, FireOnClose)
  {
  }
}
