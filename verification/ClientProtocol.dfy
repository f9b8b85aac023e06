/** The client's call multiplexer as a transition system: any number of threads in
    `call`, one chain of writes, one read loop. One action is one critical section
    of `pending_mux_` or `write_mux_`, one atomic operation, one start or completion
    of an asynchronous write, or one fulfilment of a promise.

    A call is known by its number in the order of `next_seq_id_++`; that number is
    also the name of its promise. */
module ClientProtocol {
  import opened Common
  import opened Wire

  const CONNECTION_CLOSED: i32 := -10

  /** How far the thread inside `call` has got. */
  datatype Phase = Allocated | Registered | Queued

  datatype How = Answered | WriteError | Rejected

  /** One `set_value` on a call's promise. */
  datatype Settlement = Settlement(call: nat, response: RpcResponse, how: How)

  datatype ReadLoop =
    | Listening
    | Holding(call: nat, response: RpcResponse)  // erased from `pending_`, promise not yet set
    | Stopped

  datatype State = State(
    nextSeq: u32,               // next_seq_id_
    pending: map<u32, nat>,     // pending_
    queue: seq<nat>,            // write_queue_
    writing: bool,              // writing_
    writers: nat,               // threads on their way into `do_write`
    inFlight: seq<nat>,         // writes handed to the socket and not completed
    loop: ReadLoop,
    calls: seq<RpcRequest>,
    seqs: seq<u32>,             // the local `seq_id` of each call
    phase: seq<Phase>,
    registered: seq<nat>,       // history: order of insertion into `pending_`
    enqueued: seq<nat>,         // history: order of insertion into `write_queue_`
    handed: seq<nat>,           // history: order of `async_write`
    settled: seq<Settlement>,   // history: every `set_value`
    lost: set<nat>,             // calls whose entry was overwritten
    stoppedAt: nat)             // registrations before the read loop stopped

  datatype Action =
    | Allocate(request: RpcRequest)
    | Register(call: nat)
    | Enqueue(call: nat)
    | StartWrite                             // the critical section of `do_write`
    | WriteDone(i: nat)
    | WriteFailed(i: nat, reason: Bytes)
    | Match(seqId: u32, response: RpcResponse)  // the critical section of `do_read_body`
    | Fulfil
    | RejectAll(order: seq<u32>, reason: Bytes) // `order`: the map's iteration order

  function Init(): State
  {
    State(1, map[], [], false, 0, [], Listening, [], [], [], [], [], [], [], {}, 0)
  }

  function ClosedResponse(reason: Bytes): RpcResponse
  {
    RpcResponse(CONNECTION_CLOSED, reason, [])
  }

  ghost predicate Enabled(s: State, a: Action)
  {
    match a
    case Allocate(_) => true
    case Register(c) => c < |s.phase| && c < |s.seqs| && s.phase[c].Allocated?
    case Enqueue(c) => c < |s.phase| && s.phase[c].Registered?
    case StartWrite => s.writers > 0
    case WriteDone(i) => i < |s.inFlight|
    case WriteFailed(i, _) => i < |s.inFlight| && s.inFlight[i] < |s.seqs|
    case Match(_, _) => s.loop.Listening?
    case Fulfil => s.loop.Holding?
    case RejectAll(order, _) => s.loop.Listening? && Lists(order, s.pending.Keys)
  }

  ghost function Apply(s: State, a: Action): State
    requires Enabled(s, a)
  {
    match a
    case Allocate(request) =>
      s.(nextSeq := (s.nextSeq + 1) % U32_SPAN,
         calls := s.calls + [request],
         seqs := s.seqs + [s.nextSeq],
         phase := s.phase + [Allocated])
    case Register(c) =>
      var k := s.seqs[c];
      s.(pending := s.pending[k := c],
         phase := s.phase[c := Registered],
         registered := s.registered + [c],
         lost := s.lost + (if k in s.pending then {s.pending[k]} else {}))
    case Enqueue(c) =>
      s.(queue := s.queue + [c],
         phase := s.phase[c := Queued],
         enqueued := s.enqueued + [c],
         writing := true,
         writers := if s.writing then s.writers else s.writers + 1)
    case StartWrite =>
      if s.queue == [] then
        s.(writing := false, writers := s.writers - 1)
      else
        s.(queue := s.queue[1..],
           writers := s.writers - 1,
           inFlight := s.inFlight + [s.queue[0]],
           handed := s.handed + [s.queue[0]])
    case WriteDone(i) =>
      s.(inFlight := Without(s.inFlight, i), writers := s.writers + 1)
    case WriteFailed(i, reason) =>
      var k := s.seqs[s.inFlight[i]];
      s.(inFlight := Without(s.inFlight, i),
         writers := s.writers + 1,
         pending := s.pending - {k},
         settled := if k in s.pending
                    then s.settled + [Settlement(s.pending[k], ClosedResponse(reason), WriteError)]
                    else s.settled)
    case Match(k, response) =>
      if k in s.pending then
        s.(loop := Holding(s.pending[k], response), pending := s.pending - {k})
      else s
    case Fulfil =>
      s.(loop := Listening,
         settled := s.settled + [Settlement(s.loop.call, s.loop.response, Answered)])
    case RejectAll(order, reason) =>
      s.(loop := Stopped,
         pending := map[],
         settled := s.settled + Rejections(s.pending, order, reason),
         stoppedAt := |s.registered|)
  }

  ghost function Rejections(pending: map<u32, nat>, order: seq<u32>, reason: Bytes): (r: seq<Settlement>)
    requires Lists(order, pending.Keys)
    ensures |r| == |order|
  {
    seq(|order|, i requires 0 <= i < |order| => Settlement(pending[order[i]], ClosedResponse(reason), Rejected))
  }

  // ------------------------------------------------------- sequence numbers

  /** The sequence number of call `c`: the counter starts at one and wraps. */
  function SeqOf(c: nat): u32 { (c + 1) % U32_SPAN }

  /** Two calls share a sequence number exactly when a multiple of 2^32 calls
      separates them; so among 2^32 calls in a row no two do. */
  lemma SeqOfCollision(c: nat, d: nat)
    requires c <= d
    ensures SeqOf(c) == SeqOf(d) <==> (d - c) % U32_SPAN == 0
    ensures SeqOf(c) == SeqOf(d) && d < c + U32_SPAN ==> c == d
  {
    var q, r := (c + 1) / U32_SPAN, (d + 1) / U32_SPAN;
    assert c + 1 == q * U32_SPAN + SeqOf(c) && d + 1 == r * U32_SPAN + SeqOf(d);
    if SeqOf(c) == SeqOf(d) {
      assert d - c == (r - q) * U32_SPAN;
    }
  }

  ghost predicate SeqInv(s: State)
  {
    && |s.seqs| == |s.phase| == |s.calls|
    && s.nextSeq == SeqOf(|s.calls|)
    && forall c :: 0 <= c < |s.seqs| ==> s.seqs[c] == SeqOf(c)
  }

  lemma SeqOfNext(c: nat)
    ensures SeqOf(c + 1) == (SeqOf(c) + 1) % U32_SPAN
  {
  }

  lemma SeqStep(s: State, a: Action)
    requires SeqInv(s) && Enabled(s, a)
    ensures SeqInv(Apply(s, a))
  {
    hide SeqOf;
    SeqOfNext(|s.calls|);
  }

  // ------------------------------------------------------------- write queue

  /** The write side: a token passes from the caller that set `writing_` through
      each write in turn until the queue is found empty. */
  ghost predicate WriteInv(s: State)
  {
    && s.writers + |s.inFlight| == (if s.writing then 1 else 0)
    && (s.queue != [] ==> s.writing)
    && s.enqueued == s.handed + s.queue
    && NoDup(s.enqueued)
    && (forall i :: 0 <= i < |s.enqueued| ==> s.enqueued[i] < |s.phase| && s.phase[s.enqueued[i]].Queued?)
    && (forall c :: 0 <= c < |s.phase| && s.phase[c].Queued? ==> c in s.enqueued)
    && (s.inFlight != [] ==> s.handed != [] && s.inFlight[0] == s.handed[|s.handed| - 1])
  }

  lemma WriteEnqueue(s: State, c: nat)
    requires WriteInv(s) && Enabled(s, Enqueue(c))
    ensures WriteInv(Apply(s, Enqueue(c)))
  {
    var s' := Apply(s, Enqueue(c));
    NoDupSnoc(s.enqueued, c);
    assert s.handed + (s.queue + [c]) == (s.handed + s.queue) + [c];
    assert s'.enqueued[|s.enqueued|] == c;
    forall d | 0 <= d < |s'.phase| && s'.phase[d].Queued? && d != c ensures d in s'.enqueued {
      assert s.phase[d].Queued? && d in s.enqueued;
    }
  }

  lemma WriteStart(s: State)
    requires WriteInv(s) && Enabled(s, StartWrite)
    ensures WriteInv(Apply(s, StartWrite))
  {
    if s.queue != [] {
      assert s.handed + [s.queue[0]] + s.queue[1..] == s.handed + s.queue;
    }
  }

  /** A step that leaves the queue and its histories alone. */
  lemma WriteKept(s: State, s': State)
    requires WriteInv(s)
    requires s'.queue == s.queue && s'.enqueued == s.enqueued && s'.handed == s.handed && s'.writing == s.writing
    requires s'.writers + |s'.inFlight| == s.writers + |s.inFlight|
    requires s'.inFlight == s.inFlight || s'.inFlight == []
    requires |s.phase| <= |s'.phase|
    requires forall c :: 0 <= c < |s.phase| ==> (s'.phase[c].Queued? <==> s.phase[c].Queued?)
    requires forall c :: |s.phase| <= c < |s'.phase| ==> !s'.phase[c].Queued?
    ensures WriteInv(s')
  {
    hide NoDup;
  }

  lemma WriteStep(s: State, a: Action)
    requires WriteInv(s) && Enabled(s, a)
    ensures WriteInv(Apply(s, a))
  {
    if a.Enqueue? {
      WriteEnqueue(s, a.call);
    } else if a.StartWrite? {
      WriteStart(s);
    } else {
      assert |s.inFlight| <= 1;
      hide WriteInv;
      WriteKept(s, Apply(s, a));
    }
  }

  // ---------------------------------------------------------------- promises

  predicate IsPending(s: State, c: nat)
  {
    c < |s.seqs| && s.seqs[c] in s.pending && s.pending[s.seqs[c]] == c
  }
  predicate IsHeld(s: State, c: nat) { s.loop.Holding? && s.loop.call == c }
  predicate IsSettled(s: State, c: nat) { exists i :: 0 <= i < |s.settled| && s.settled[i].call == c }
  predicate IsRegistered(s: State, c: nat) { c < |s.phase| && !s.phase[c].Allocated? }

  /** A registered call sits in exactly one place, and its promise has been set at
      most once. */
  ghost predicate PromiseInv(s: State)
  {
    && (forall k :: k in s.pending ==> s.pending[k] < |s.seqs| && s.seqs[s.pending[k]] == k)
    && (forall c: nat {:trigger IsPending(s, c)} :: IsPending(s, c) ==>
          IsRegistered(s, c) && !IsHeld(s, c) && !IsSettled(s, c) && c !in s.lost)
    && (s.loop.Holding? ==> IsRegistered(s, s.loop.call) && !IsSettled(s, s.loop.call) && s.loop.call !in s.lost)
    && (forall i :: 0 <= i < |s.settled| ==> IsRegistered(s, s.settled[i].call) && s.settled[i].call !in s.lost)
    && (forall i, j :: 0 <= i < j < |s.settled| ==> s.settled[i].call != s.settled[j].call)
    && (forall c :: c in s.lost ==> IsRegistered(s, c))
    && (forall c: nat {:trigger IsRegistered(s, c)} :: IsRegistered(s, c) ==>
          IsPending(s, c) || IsHeld(s, c) || IsSettled(s, c) || c in s.lost)
  }

  /** A step that touches neither `pending_` nor a promise. */
  lemma PromiseKept(s: State, s': State)
    requires PromiseInv(s)
    requires s'.pending == s.pending && s'.loop == s.loop && s'.settled == s.settled && s'.lost == s.lost
    requires s.seqs <= s'.seqs && |s.seqs| == |s.phase| <= |s'.phase|
    requires forall c: nat :: IsRegistered(s', c) <==> IsRegistered(s, c)
    ensures PromiseInv(s')
  {
    forall c: nat ensures IsPending(s', c) <==> IsPending(s, c) {
      if IsPending(s', c) {
        assert s.pending[s'.seqs[c]] == c;
      }
    }
    forall c: nat ensures IsSettled(s', c) <==> IsSettled(s, c) {
    }
    assert forall c: nat :: IsHeld(s', c) <==> IsHeld(s, c);
  }

  lemma PromiseRegister(s: State, c: nat)
    requires SeqInv(s) && PromiseInv(s) && Enabled(s, Register(c))
    ensures PromiseInv(Apply(s, Register(c)))
  {
    hide SeqOf;
    var s' := Apply(s, Register(c));
    var k := s.seqs[c];
    assert !IsRegistered(s, c);
    forall d: nat ensures IsSettled(s', d) <==> IsSettled(s, d) {
    }
    forall d: nat ensures IsRegistered(s', d) <==> IsRegistered(s, d) || d == c {
    }
    forall d: nat ensures IsPending(s', d) <==> d == c || (IsPending(s, d) && s.seqs[d] != k) {
    }
    if k in s.pending {
      assert IsPending(s, s.pending[k]);
    }
    assert !IsPending(s, c) && !IsSettled(s, c) && !IsHeld(s, c) && c !in s.lost;
  }

  /** Taking the entry of call `c` out of `pending_` to settle it at once. */
  lemma PromiseSettle(s: State, s': State, c: nat)
    requires SeqInv(s) && PromiseInv(s) && IsPending(s, c)
    requires s'.pending == s.pending - {s.seqs[c]} && s'.loop == s.loop && s'.lost == s.lost
    requires |s'.settled| == |s.settled| + 1 && s'.settled[..|s.settled|] == s.settled
    requires s'.settled[|s.settled|].call == c
    requires s'.seqs == s.seqs && s'.phase == s.phase
    ensures PromiseInv(s')
  {
    hide SeqOf;
    forall d: nat ensures IsRegistered(s', d) <==> IsRegistered(s, d) {
    }
    var n := |s.settled|;
    assert forall i :: 0 <= i < n ==> s'.settled[i] == s.settled[i];
    forall d: nat ensures IsSettled(s', d) <==> IsSettled(s, d) || d == c {
      if IsSettled(s, d) {
        var i :| 0 <= i < n && s.settled[i].call == d;
        assert s'.settled[i].call == d;
      }
      assert s'.settled[n].call == c;
    }
    forall d: nat ensures IsPending(s', d) <==> IsPending(s, d) && d != c {
    }
    forall i | 0 <= i < n ensures s.settled[i].call != c {
      assert IsSettled(s, s.settled[i].call);
    }
  }

  lemma PromiseMatch(s: State, k: u32, response: RpcResponse)
    requires SeqInv(s) && PromiseInv(s) && Enabled(s, Match(k, response))
    ensures PromiseInv(Apply(s, Match(k, response)))
  {
    hide SeqOf;
    var s' := Apply(s, Match(k, response));
    if k in s.pending {
      var c := s.pending[k];
      assert IsPending(s, c);
      forall d: nat ensures IsRegistered(s', d) <==> IsRegistered(s, d) {
      }
      forall d: nat ensures IsSettled(s', d) <==> IsSettled(s, d) {
      }
      forall d: nat ensures IsPending(s', d) <==> IsPending(s, d) && d != c {
      }
    }
  }

  lemma PromiseFulfil(s: State)
    requires PromiseInv(s) && Enabled(s, Fulfil)
    ensures PromiseInv(Apply(s, Fulfil))
  {
    var s' := Apply(s, Fulfil);
    forall d: nat ensures IsRegistered(s', d) <==> IsRegistered(s, d) {
    }
    var n, c := |s.settled|, s.loop.call;
    forall d: nat ensures IsSettled(s', d) <==> IsSettled(s, d) || d == c {
      if IsSettled(s, d) {
        var i :| 0 <= i < n && s.settled[i].call == d;
        assert s'.settled[i].call == d;
      }
      assert s'.settled[n].call == c;
    }
    forall d: nat ensures IsPending(s', d) <==> IsPending(s, d) {
    }
    forall i | 0 <= i < n ensures s.settled[i].call != c {
      assert IsSettled(s, s.settled[i].call);
    }
  }

  lemma PromiseReject(s: State, order: seq<u32>, reason: Bytes)
    requires SeqInv(s) && PromiseInv(s) && Enabled(s, RejectAll(order, reason))
    ensures PromiseInv(Apply(s, RejectAll(order, reason)))
  {
    hide SeqOf;
    var s' := Apply(s, RejectAll(order, reason));
    forall d: nat ensures IsRegistered(s', d) <==> IsRegistered(s, d) {
    }
    var n := |s.settled|;
    forall i | 0 <= i < |order|
      ensures s'.settled[n + i].call == s.pending[order[i]] && IsPending(s, s.pending[order[i]])
    {
      assert order[i] in order;
    }
    RejectSettles(s, s', order);
    RejectNoRepeat(s, s', order);
    hide Apply, Enabled;
    PromiseEmptied(s, s');
  }

  /** When everybody who waits has been settled, once, and nobody waits any more. */
  lemma PromiseEmptied(s: State, s': State)
    requires PromiseInv(s) && s.loop.Listening? && s'.loop.Stopped?
    requires s'.pending == map[] && s'.lost == s.lost
    requires forall d: nat :: IsRegistered(s', d) <==> IsRegistered(s, d)
    requires forall d: nat :: IsSettled(s', d) <==> IsSettled(s, d) || IsPending(s, d)
    requires forall i, j :: 0 <= i < j < |s'.settled| ==> s'.settled[i].call != s'.settled[j].call
    ensures PromiseInv(s')
  {
    forall i | 0 <= i < |s'.settled|
      ensures IsRegistered(s', s'.settled[i].call) && s'.settled[i].call !in s'.lost
    {
      var d := s'.settled[i].call;
      assert IsSettled(s', d);
      SettledRegistered(s, d);
    }
    hide IsRegistered, IsSettled;
    assert forall c: nat :: !IsPending(s', c) && !IsHeld(s', c);
    assert forall c: nat :: !IsHeld(s, c);
  }

  lemma SettledRegistered(s: State, d: nat)
    requires PromiseInv(s) && (IsSettled(s, d) || IsPending(s, d))
    ensures IsRegistered(s, d) && d !in s.lost
  {
  }

  lemma RejectSettles(s: State, s': State, order: seq<u32>)
    requires Lists(order, s.pending.Keys)
    requires |s'.settled| == |s.settled| + |order| && s'.settled[..|s.settled|] == s.settled
    requires forall i :: 0 <= i < |order| ==> s'.settled[|s.settled| + i].call == s.pending[order[i]]
    requires forall i :: 0 <= i < |order| ==> IsPending(s, s.pending[order[i]])
    ensures forall d: nat :: IsSettled(s', d) <==> IsSettled(s, d) || IsPending(s, d)
  {
    var n := |s.settled|;
    forall d: nat ensures IsSettled(s', d) <==> IsSettled(s, d) || IsPending(s, d) {
      if IsSettled(s, d) {
        var i :| 0 <= i < n && s.settled[i].call == d;
        assert s'.settled[i] == s.settled[i];
      }
      if IsPending(s, d) {
        assert s.seqs[d] in order;
        var i :| 0 <= i < |order| && order[i] == s.seqs[d];
        assert s'.settled[n + i].call == d;
      }
      if IsSettled(s', d) {
        var i :| 0 <= i < |s'.settled| && s'.settled[i].call == d;
        if i < n {
          assert s.settled[i] == s'.settled[i];
        } else {
          assert s'.settled[n + (i - n)].call == s.pending[order[i - n]];
        }
      }
    }
  }

  lemma RejectNoRepeat(s: State, s': State, order: seq<u32>)
    requires PromiseInv(s) && Lists(order, s.pending.Keys)
    requires |s'.settled| == |s.settled| + |order| && s'.settled[..|s.settled|] == s.settled
    requires forall i :: 0 <= i < |order| ==> s'.settled[|s.settled| + i].call == s.pending[order[i]]
    requires forall i :: 0 <= i < |order| ==> IsPending(s, s.pending[order[i]])
    ensures forall i, j :: 0 <= i < j < |s'.settled| ==> s'.settled[i].call != s'.settled[j].call
  {
    var n := |s.settled|;
    forall i, j | 0 <= i < j < |s'.settled| ensures s'.settled[i].call != s'.settled[j].call {
      if j >= n {
        var e := s'.settled[n + (j - n)].call;
        assert e == s.pending[order[j - n]];
        if i < n {
          assert s'.settled[i] == s.settled[i];
          assert IsSettled(s, s.settled[i].call);
        } else {
          assert s'.settled[n + (i - n)].call == s.pending[order[i - n]];
          assert order[i - n] != order[j - n];
        }
      } else {
        assert s'.settled[i] == s.settled[i] && s'.settled[j] == s.settled[j];
      }
    }
  }

  lemma PromiseStep(s: State, a: Action)
    requires SeqInv(s) && WriteInv(s) && PromiseInv(s) && Enabled(s, a)
    ensures PromiseInv(Apply(s, a))
  {
    var s' := Apply(s, a);
    match a
    case Register(c) => PromiseRegister(s, c);
    case Match(k, response) => PromiseMatch(s, k, response);
    case Fulfil => PromiseFulfil(s);
    case RejectAll(order, reason) => PromiseReject(s, order, reason);
    case WriteFailed(i, reason) =>
      var k := s.seqs[s.inFlight[i]];
      if k in s.pending {
        PromiseSettle(s, s', s.pending[k]);
      } else {
        assert s'.pending == s.pending;
        PromiseKept(s, s');
      }
    case _ => PromiseKept(s, s');
  }

  // ------------------------------------- overwritten entries, and a stopped loop

  /** With at most 2^32 calls no entry of `pending_` is overwritten. */
  ghost predicate NothingLost(s: State)
  {
    |s.calls| <= U32_SPAN ==> s.lost == {}
  }

  lemma NothingLostStep(s: State, a: Action)
    requires SeqInv(s) && PromiseInv(s) && NothingLost(s) && Enabled(s, a)
    ensures NothingLost(Apply(s, a))
  {
    hide SeqOf;
    if a.Register? && s.seqs[a.call] in s.pending && |s.calls| <= U32_SPAN {
      var d := s.pending[s.seqs[a.call]];
      assert IsPending(s, d);
      assert d != a.call;
      SeqOfCollision(if d < a.call then d else a.call, if d < a.call then a.call else d);
    }
  }

  /** When the read loop has stopped, whatever is left in `pending_` came later. */
  ghost predicate HistoryInv(s: State)
  {
    && s.stoppedAt <= |s.registered|
    && (forall c: nat {:trigger IsRegistered(s, c)} :: IsRegistered(s, c) <==> c in s.registered)
    && (s.loop.Stopped? ==> forall k :: k in s.pending ==> s.pending[k] in s.registered[s.stoppedAt..])
  }

  lemma HistoryStep(s: State, a: Action)
    requires SeqInv(s) && HistoryInv(s) && Enabled(s, a)
    ensures HistoryInv(Apply(s, a))
  {
    hide SeqOf;
    var s' := Apply(s, a);
    if a.Register? {
      forall c: nat ensures IsRegistered(s', c) <==> IsRegistered(s, c) || c == a.call {
      }
      assert s'.registered[s.stoppedAt..] == s.registered[s.stoppedAt..] + [a.call];
    } else {
      forall c: nat ensures IsRegistered(s', c) <==> IsRegistered(s, c) {
      }
    }
  }

  // -------------------------------------------------------------- whole runs

  ghost predicate Inv(s: State)
  {
    SeqInv(s) && WriteInv(s) && PromiseInv(s) && NothingLost(s) && HistoryInv(s)
  }

  lemma InitInv()
    ensures Inv(Init())
  {
    var s := Init();
    assert SeqInv(s) && WriteInv(s) && NothingLost(s) && HistoryInv(s);
    assert forall c: nat :: !IsRegistered(s, c) && !IsPending(s, c);
  }

  lemma Step(s: State, a: Action)
    requires Inv(s) && Enabled(s, a)
    ensures Inv(Apply(s, a))
  {
    hide SeqInv, WriteInv, PromiseInv, NothingLost, HistoryInv, Enabled, Apply;
    SeqStep(s, a);
    WriteStep(s, a);
    PromiseStep(s, a);
    NothingLostStep(s, a);
    HistoryStep(s, a);
  }

  ghost predicate RunOk(s: State, acts: seq<Action>)
    decreases |acts|
  {
    acts == [] || (Enabled(s, acts[0]) && RunOk(Apply(s, acts[0]), acts[1..]))
  }

  ghost function Exec(s: State, acts: seq<Action>): State
    requires RunOk(s, acts)
    decreases |acts|
  {
    if acts == [] then s else Exec(Apply(s, acts[0]), acts[1..])
  }

  lemma {:induction false} RunKeepsInv(s: State, acts: seq<Action>)
    requires Inv(s) && RunOk(s, acts)
    ensures Inv(Exec(s, acts))
    decreases |acts|
  {
    hide Inv, Enabled, Apply;
    if acts != [] {
      Step(s, acts[0]);
      RunKeepsInv(Apply(s, acts[0]), acts[1..]);
    }
  }

  ghost predicate Reachable(s: State, acts: seq<Action>)
  {
    RunOk(Init(), acts) && s == Exec(Init(), acts)
  }

  /** Any number of concurrent `call`s, any write errors: at most one write is
      outstanding, queued frames always have a writer, and frames reach the socket
      at most once, in the order they were queued. */
  lemma ClientWriteQueue(s: State, acts: seq<Action>)
    requires Reachable(s, acts)
    ensures |s.inFlight| <= 1
    ensures s.queue != [] ==> s.writing
    ensures s.writing <==> s.writers + |s.inFlight| == 1
    ensures s.handed <= s.enqueued && s.enqueued == s.handed + s.queue && NoDup(s.enqueued)
  {
    InitInv();
    RunKeepsInv(Init(), acts);
  }

  function One(b: bool): nat { if b then 1 else 0 }

  /** In how many places call `c` is. */
  ghost function Places(s: State, c: nat): nat
  {
    One(c < |s.phase| && s.phase[c].Allocated?) + One(IsPending(s, c)) + One(IsHeld(s, c))
    + One(IsSettled(s, c)) + One(c in s.lost)
  }

  /** In every run no promise is set twice, and every issued call is in exactly one
      place: not yet registered, in `pending_`, in the read handler's hands,
      fulfilled, or overwritten. The last needs more than 2^32 calls. */
  lemma PromiseConservation(s: State, acts: seq<Action>)
    requires Reachable(s, acts)
    ensures forall i, j :: 0 <= i < j < |s.settled| ==> s.settled[i].call != s.settled[j].call
    ensures forall c :: 0 <= c < |s.calls| ==> Places(s, c) == 1
    ensures |s.calls| <= U32_SPAN ==> s.lost == {}
  {
    InitInv();
    RunKeepsInv(Init(), acts);
    forall c | 0 <= c < |s.calls| ensures Places(s, c) == 1 {
      PlacesOne(s, c);
    }
  }

  lemma PlacesOne(s: State, c: nat)
    requires Inv(s) && c < |s.calls|
    ensures Places(s, c) == 1
  {
    hide SeqOf, WriteInv, HistoryInv, NothingLost;
    if IsSettled(s, c) {
      var i :| 0 <= i < |s.settled| && s.settled[i].call == c;
    }
    assert IsRegistered(s, c) <==> !s.phase[c].Allocated?;
  }

  /** Registering call `c` overwrites the entry of a pending call `d` exactly when
      their numbers differ by a multiple of 2^32. */
  lemma OverwrittenExactly(s: State, c: nat, d: nat)
    requires Inv(s) && Enabled(s, Register(c)) && IsPending(s, d)
    ensures d in Apply(s, Register(c)).lost <==> (if c < d then d - c else c - d) % U32_SPAN == 0
  {
    hide SeqOf;
    if c < d {
      SeqOfCollision(c, d);
    } else {
      SeqOfCollision(d, c);
    }
  }

  lemma LostStays(s: State, a: Action)
    requires Enabled(s, a)
    ensures s.lost <= Apply(s, a).lost
  {
  }

  /** An overwritten call stays overwritten: no continuation ever sets its promise. */
  lemma {:induction false} OverwrittenForever(s: State, acts: seq<Action>, d: nat)
    requires Inv(s) && RunOk(s, acts) && d in s.lost
    ensures d in Exec(s, acts).lost && !IsSettled(Exec(s, acts), d)
    decreases |acts|
  {
    hide Inv, Enabled, Apply;
    if acts == [] {
      NotSettled(s, d);
    } else {
      Step(s, acts[0]);
      LostStays(s, acts[0]);
      OverwrittenForever(Apply(s, acts[0]), acts[1..], d);
    }
  }

  lemma {:induction false} RunSnoc(s: State, acts: seq<Action>, a: Action)
    requires RunOk(s, acts) && Enabled(Exec(s, acts), a)
    ensures RunOk(s, acts + [a]) && Exec(s, acts + [a]) == Apply(Exec(s, acts), a)
    decreases |acts|
  {
    hide Enabled, Apply;
    if acts == [] {
      assert acts + [a] == [a] && [a][1..] == [];
    } else {
      RunSnoc(Apply(s, acts[0]), acts[1..], a);
      assert (acts + [a])[1..] == acts[1..] + [a];
    }
  }

  /** Any number of threads may have taken a number before the first one registers. */
  lemma {:induction false} AllocateMany(n: nat, q: RpcRequest) returns (s: State, acts: seq<Action>)
    ensures Reachable(s, acts) && Inv(s)
    ensures |s.phase| == |s.seqs| == n && s.pending == map[] && s.lost == {}
    ensures forall c :: 0 <= c < n ==> s.phase[c].Allocated?
    decreases n
  {
    hide Inv;
    InitInv();
    if n == 0 {
      s, acts := Init(), [];
    } else {
      var t, before := AllocateMany(n - 1, q);
      s, acts := Apply(t, Allocate(q)), before + [Allocate(q)];
      RunSnoc(Init(), before, Allocate(q));
      Step(t, Allocate(q));
    }
  }

  /** And it does happen, to any call: when 2^32 further numbers are taken before the
      call is answered, the last of them takes its entry away. */
  lemma OverwriteHappens(d: nat, q: RpcRequest) returns (s: State, acts: seq<Action>)
    ensures Reachable(s, acts) && Inv(s)
    ensures s.lost == {d} && !IsSettled(s, d)
  {
    var c := d + U32_SPAN;
    var s0, acts0 := AllocateMany(c + 1, q);
    var s1 := Apply(s0, Register(d));
    hide Inv;
    RunSnoc(Init(), acts0, Register(d));
    Step(s0, Register(d));
    s, acts := Apply(s1, Register(c)), acts0 + [Register(d)] + [Register(c)];
    RunSnoc(Init(), acts0 + [Register(d)], Register(c));
    Step(s1, Register(c));
    assert IsPending(s1, d);
    OverwrittenExactly(s1, c, d);
    NotSettled(s, d);
  }

  lemma NotSettled(s: State, d: nat)
    requires Inv(s) && d in s.lost
    ensures !IsSettled(s, d)
  {
    hide SeqInv, WriteInv, NothingLost, HistoryInv;
  }

  /** Once the read loop has stopped, every call still in `pending_` was registered
      after the rejection: the rejection missed nobody. */
  lemma LeftAfterStop(s: State, acts: seq<Action>, k: u32)
    requires Reachable(s, acts) && s.loop.Stopped? && k in s.pending
    ensures s.stoppedAt <= |s.registered| && s.pending[k] in s.registered[s.stoppedAt..]
  {
    InitInv();
    RunKeepsInv(Init(), acts);
  }

  lemma StoppedStep(s: State, a: Action)
    requires Enabled(s, a) && s.loop.Stopped?
    ensures var s' := Apply(s, a);
            && s'.loop.Stopped? && s.settled <= s'.settled
            && forall i :: |s.settled| <= i < |s'.settled| ==> s'.settled[i].how.WriteError?
  {
  }

  /** And nobody answers the ones that came later: from there on, whatever happens, only
      a failed write ever resolves a future. */
  lemma {:induction false} OnlyWriteErrorsAfterStop(s: State, acts: seq<Action>)
    requires RunOk(s, acts) && s.loop.Stopped?
    ensures var e := Exec(s, acts);
            && e.loop.Stopped? && s.settled <= e.settled
            && forall i :: |s.settled| <= i < |e.settled| ==> e.settled[i].how.WriteError?
    decreases |acts|
  {
    hide Enabled, Apply;
    if acts != [] {
      StoppedStep(s, acts[0]);
      OnlyWriteErrorsAfterStop(Apply(s, acts[0]), acts[1..]);
    }
  }

  // ------------------------------------------------------ the owner of a number

  /** Of all calls registered under one number, `c` was the last. */
  ghost predicate LastOfNumber(s: State, c: nat)
  {
    exists i :: IsLastAt(s, c, i)
  }

  predicate IsLastAt(s: State, c: nat, i: nat)
  {
    && i < |s.registered| && s.registered[i] == c
    && forall j :: i < j < |s.registered| ==> SeqOf(s.registered[j]) != SeqOf(c)
  }

  predicate RegisteredBefore(s: State, c: nat, d: nat)
  {
    exists i, j :: 0 <= i < j < |s.registered| && s.registered[i] == c && s.registered[j] == d
  }

  /** A later call has been registered under the number of call `d`. */
  ghost predicate Superseded(s: State, d: nat)
  {
    exists e: nat :: RegisteredBefore(s, d, e) && SeqOf(e) == SeqOf(d)
  }

  /** Calls register once, and an entry is the last call registered under its number. */
  ghost predicate OwnerInv(s: State)
  {
    NoDup(s.registered) && forall k :: k in s.pending ==> LastOfNumber(s, s.pending[k])
  }

  lemma OwnerRegister(s: State, c: nat)
    requires Inv(s) && OwnerInv(s) && Enabled(s, Register(c))
    ensures OwnerInv(Apply(s, Register(c)))
  {
    hide SeqOf, WriteInv, NothingLost;
    var s' := Apply(s, Register(c));
    assert !IsRegistered(s, c);
    NoDupSnoc(s.registered, c);
    forall k | k in s'.pending ensures LastOfNumber(s', s'.pending[k]) {
      if k == s.seqs[c] {
        assert IsLastAt(s', c, |s.registered|);
      } else {
        var d := s.pending[k];
        var i :| IsLastAt(s, d, i);
        assert SeqOf(d) == k;
        assert IsLastAt(s', d, i);
      }
    }
  }

  lemma OwnerStep(s: State, a: Action)
    requires Inv(s) && OwnerInv(s) && Enabled(s, a)
    ensures OwnerInv(Apply(s, a))
  {
    hide SeqOf, SeqInv, WriteInv, PromiseInv, NothingLost, HistoryInv;
    if a.Register? {
      OwnerRegister(s, a.call);
    } else {
      var s' := Apply(s, a);
      forall k | k in s'.pending ensures LastOfNumber(s', s'.pending[k]) {
        var i :| IsLastAt(s, s.pending[k], i);
        assert IsLastAt(s', s.pending[k], i);
      }
    }
  }

  /** Who is found under a number: a registered call `d` if and only if no later call
      has been registered under it. */
  lemma OwnerExactly(s: State, d: nat)
    requires Inv(s) && OwnerInv(s) && IsRegistered(s, d) && SeqOf(d) in s.pending
    ensures s.pending[SeqOf(d)] == d <==> !Superseded(s, d)
    ensures s.pending[SeqOf(d)] != d ==> RegisteredBefore(s, d, s.pending[SeqOf(d)])
  {
    hide SeqOf, WriteInv, NothingLost;
    var c := s.pending[SeqOf(d)];
    assert SeqOf(c) == SeqOf(d);
    var i :| IsLastAt(s, c, i);
    assert d in s.registered;
    var j :| 0 <= j < |s.registered| && s.registered[j] == d;
    if c != d {
      assert j < i;
      assert RegisteredBefore(s, d, c);
    }
  }

  // ------------------------------------------------------ what a failure tells

  /** The rejection tells every waiting call that the connection is closed, with code -10
      and the reason, tells nobody else anything, and empties `pending_`. */
  lemma RejectionTellsAll(s: State, order: seq<u32>, reason: Bytes)
    requires Inv(s) && Enabled(s, RejectAll(order, reason))
    ensures var s' := Apply(s, RejectAll(order, reason));
            && s'.pending == map[] && s'.loop.Stopped? && s.settled <= s'.settled
            && (forall c: nat :: IsPending(s, c) ==>
                  Settlement(c, RpcResponse(-10, reason, []), Rejected) in s'.settled)
            && (forall i :: |s.settled| <= i < |s'.settled| ==> IsPending(s, s'.settled[i].call))
  {
    hide SeqOf, WriteInv, NothingLost, HistoryInv;
    var s' := Apply(s, RejectAll(order, reason));
    var n, told := |s.settled|, Rejections(s.pending, order, reason);
    assert s'.settled == s.settled + told;
    forall i | 0 <= i < |order|
      ensures IsPending(s, s.pending[order[i]])
      ensures s'.settled[n + i] == Settlement(s.pending[order[i]], RpcResponse(-10, reason, []), Rejected)
    {
      assert order[i] in order;
      assert s'.settled[n + i] == (s.settled + told)[n + i] == told[i];
      assert told[i] == Settlement(s.pending[order[i]], ClosedResponse(reason), Rejected);
    }
    forall c: nat | IsPending(s, c) ensures Settlement(c, RpcResponse(-10, reason, []), Rejected) in s'.settled {
      assert s.seqs[c] in order;
      var i :| 0 <= i < |order| && order[i] == s.seqs[c];
      assert s'.settled[n + i].call == c;
    }
    forall i | n <= i < |s'.settled| ensures IsPending(s, s'.settled[i].call) {
      assert s'.settled[n + (i - n)].call == s.pending[order[i - n]];
    }
  }

  /** A failed write tells the call that waits under its number, and nobody else. */
  lemma FailedWriteTells(s: State, i: nat, reason: Bytes)
    requires Inv(s) && Enabled(s, WriteFailed(i, reason))
    ensures var s', k := Apply(s, WriteFailed(i, reason)), SeqOf(s.inFlight[i]);
            && s'.pending == s.pending - {k} && s'.loop == s.loop
            && s'.settled == s.settled + (if k in s.pending
                                          then [Settlement(s.pending[k], RpcResponse(-10, reason, []), WriteError)]
                                          else [])
  {
    hide SeqOf, WriteInv, PromiseInv, NothingLost, HistoryInv;
  }

  lemma StoppedKeeps(s: State, a: Action)
    requires Enabled(s, a) && s.loop.Stopped?
    ensures var s' := Apply(s, a);
            s'.loop.Stopped? && s'.stoppedAt == s.stoppedAt && s.registered <= s'.registered
  {
  }

  lemma {:induction false} StoppedRunKeeps(s: State, acts: seq<Action>)
    requires RunOk(s, acts) && s.loop.Stopped?
    ensures var e := Exec(s, acts);
            e.loop.Stopped? && e.stoppedAt == s.stoppedAt && s.registered <= e.registered
    decreases |acts|
  {
    hide Enabled, Apply;
    if acts != [] {
      StoppedKeeps(s, acts[0]);
      StoppedRunKeeps(Apply(s, acts[0]), acts[1..]);
    }
  }

  /** The rejection misses nobody: whoever waits at any later time was not yet registered
      when it happened. */
  lemma RejectionMissesNobody(
    s: State, acts: seq<Action>, order: seq<u32>, reason: Bytes, more: seq<Action>, k: u32)
    requires Reachable(s, acts) && Enabled(s, RejectAll(order, reason))
    requires RunOk(Apply(s, RejectAll(order, reason)), more)
    requires k in Exec(Apply(s, RejectAll(order, reason)), more).pending
    ensures !IsRegistered(s, Exec(Apply(s, RejectAll(order, reason)), more).pending[k])
  {
    var t := Apply(s, RejectAll(order, reason));
    var e := Exec(t, more);
    hide SeqInv, WriteInv, PromiseInv, NothingLost, Enabled, Apply, RunOk, Exec, IsRegistered, NoDup;
    ReachableOwner(s, acts);
    Step(s, RejectAll(order, reason));
    OwnerStep(s, RejectAll(order, reason));
    RunKeepsInv(t, more);
    RunKeepsOwner(t, more);
    RejectionMarks(s, order, reason);
    StoppedRunKeeps(t, more);
    LaterOnly(s.registered, e.registered, e.pending[k]);
  }

  lemma RejectionMarks(s: State, order: seq<u32>, reason: Bytes)
    requires Enabled(s, RejectAll(order, reason))
    ensures var t := Apply(s, RejectAll(order, reason));
            t.loop.Stopped? && t.stoppedAt == |s.registered| && t.registered == s.registered
  {
  }

  lemma LaterOnly(before: seq<nat>, after: seq<nat>, c: nat)
    requires before <= after && NoDup(after) && c in after[|before|..]
    ensures c !in before
  {
    var i :| 0 <= i < |after| - |before| && after[|before|..][i] == c;
    assert after[|before| + i] == c;
    assert forall j :: 0 <= j < |before| ==> before[j] == after[j];
  }

  lemma {:induction false} RunKeepsOwner(s: State, acts: seq<Action>)
    requires Inv(s) && OwnerInv(s) && RunOk(s, acts)
    ensures OwnerInv(Exec(s, acts))
    decreases |acts|
  {
    hide Inv, OwnerInv, Enabled, Apply;
    if acts != [] {
      Step(s, acts[0]);
      OwnerStep(s, acts[0]);
      RunKeepsOwner(Apply(s, acts[0]), acts[1..]);
    }
  }

  lemma ReachableOwner(s: State, acts: seq<Action>)
    requires Reachable(s, acts)
    ensures Inv(s) && OwnerInv(s)
  {
    InitInv();
    RunKeepsInv(Init(), acts);
    RunKeepsOwner(Init(), acts);
  }

  /** Nothing that the outside may do is ruled out: any call may be issued at any time, an
      outstanding write may complete or fail, and while the loop listens any response may
      come and any failure may end it. */
  lemma OutsideIsFree(s: State, q: RpcRequest, k: u32, r: RpcResponse, order: seq<u32>, reason: Bytes)
    requires Inv(s) && Lists(order, s.pending.Keys)
    ensures Enabled(s, Allocate(q))
    ensures s.inFlight != [] ==> Enabled(s, WriteDone(0)) && Enabled(s, WriteFailed(0, reason))
    ensures s.loop.Listening? ==> Enabled(s, Match(k, r)) && Enabled(s, RejectAll(order, reason))
  {
    hide SeqOf, PromiseInv, NothingLost, HistoryInv;
    if s.inFlight != [] {
      assert s.enqueued[|s.handed| - 1] == s.inFlight[0];
    }
  }
}
