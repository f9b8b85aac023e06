/** The `RpcClient` object. Each method is one critical section, one atomic
    operation or one completion handler of the source; `model` is the state of the
    protocol that all threads drive together, and every method is proved to take
    exactly its action there. A promise is a cell that may be set once. */
module RpcClient {
  import opened Common
  import opened Wire
  import opened Framing
  import opened M = ClientProtocol
  import Serializer

  datatype WriteItem = WriteItem(frame: Bytes, seqId: u32)

  /** The item of call `c`, as `call` builds it. */
  function ItemOf(m: State, c: nat): WriteItem
    requires c < |m.calls|
  {
    WriteItem(Encode(RequestMessage(SeqOf(c), m.calls[c])), SeqOf(c))
  }

  class RpcClient {
    var nextSeqId: u32
    var pending: map<u32, nat>
    var writeQueue: seq<WriteItem>
    var writing: bool
    var promises: seq<Option<RpcResponse>>
    ghost var model: State

    /** The write queue holds the frames of the queued calls. */
    ghost predicate QueueMatches()
      reads this
    {
      && |writeQueue| == |model.queue|
      && (forall i :: 0 <= i < |model.queue| ==> model.queue[i] < |model.calls|)
      && (forall i :: 0 <= i < |writeQueue| ==> writeQueue[i] == ItemOf(model, model.queue[i]))
    }

    /** A promise holds a value exactly when it was set, and then the value it was set to. */
    ghost predicate PromisesMatch()
      reads this
    {
      && |promises| == |model.calls|
      && (forall c: nat :: c < |promises| ==> (promises[c].Some? <==> IsSettled(model, c)))
      && (forall i :: 0 <= i < |model.settled| ==>
            model.settled[i].call < |promises| && promises[model.settled[i].call] == Some(model.settled[i].response))
    }

    ghost predicate Valid()
      reads this
    {
      && nextSeqId == model.nextSeq && pending == model.pending && writing == model.writing
      && QueueMatches() && PromisesMatch() && Inv(model)
    }

    constructor ()
      ensures Valid() && model == Init()
    {
      InitInv();
      nextSeqId, pending, writeQueue, writing, promises := 1, map[], [], false, [];
      model := Init();
    }

    /** `next_seq_id_++`, with a fresh promise for the call. */
    method AllocateCall(request: RpcRequest) returns (seqId: u32, promise: nat)
      requires Valid()
      modifies this
      ensures Valid() && model == Apply(old(model), Allocate(request))
      ensures promise == |old(model.calls)| && seqId == SeqOf(promise)
    {
      Step(model, Allocate(request));
      hide Inv, SeqOf;
      seqId, promise := nextSeqId, |promises|;
      SeqAt(model);
      model := Apply(model, Allocate(request));
      nextSeqId := (nextSeqId + 1) % U32_SPAN;
      promises := promises + [None];
      SettledKept(old(model), model);
    }

    /** `pending_[seq_id] = pending` under the lock. */
    method RegisterCall(seqId: u32, promise: nat)
      requires Valid() && Enabled(model, Register(promise)) && seqId == model.seqs[promise]
      modifies this
      ensures Valid() && model == Apply(old(model), Register(promise))
    {
      Step(model, Register(promise));
      hide Inv, SeqOf;
      model := Apply(model, Register(promise));
      pending := pending[seqId := promise];
      SettledKept(old(model), model);
    }

    /** The critical section of `enqueue_write`; the caller writes if it found no writer. */
    method EnqueueWrite(item: WriteItem, ghost call: nat) returns (startWrite: bool)
      requires Valid() && Enabled(model, Enqueue(call)) && call < |model.calls| && item == ItemOf(model, call)
      modifies this
      ensures Valid() && model == Apply(old(model), Enqueue(call))
      ensures startWrite <==> !old(writing)
    {
      Step(model, Enqueue(call));
      hide Inv, SeqOf, Encode;
      model := Apply(model, Enqueue(call));
      writeQueue := writeQueue + [item];
      startWrite := !writing;
      writing := true;
      SettledKept(old(model), model);
    }

    /** The critical section of `do_write`: the front item, or `writing_ = false`. */
    method TakeWrite() returns (item: Option<WriteItem>)
      requires Valid() && Enabled(model, StartWrite)
      modifies this
      ensures Valid() && model == Apply(old(model), StartWrite)
      ensures old(model.queue) == [] ==> item == None && !writing
      ensures old(model.queue) != [] ==>
                old(model.queue)[0] < |old(model.calls)| && item == Some(ItemOf(old(model), old(model.queue)[0]))
    {
      Step(model, StartWrite);
      hide Inv, SeqOf, Encode;
      model := Apply(model, StartWrite);
      if |writeQueue| == 0 {
        writing := false;
        item := None;
      } else {
        item := Some(writeQueue[0]);
        writeQueue := writeQueue[1..];
      }
      SettledKept(old(model), model);
    }

    /** The completion handler of a write that failed: its call, if it still waits, is
        told so. The promise is found unset. */
    method OnWriteError(item: WriteItem, ghost i: nat, reason: Bytes)
      requires Valid() && Enabled(model, WriteFailed(i, reason)) && item.seqId == model.seqs[model.inFlight[i]]
      modifies this
      ensures Valid() && model == Apply(old(model), WriteFailed(i, reason))
      ensures pending == old(pending) - {item.seqId}
      ensures promises == if item.seqId in old(pending)
                          then old(promises)[old(pending)[item.seqId] := Some(RpcResponse(-10, reason, []))]
                          else old(promises)
    {
      hide Inv, Apply, SeqOf, Encode, RequestMessage;
      Step(model, WriteFailed(i, reason));
      FailedEffect(model, i, reason);
      if item.seqId in pending {
        var promise := pending[item.seqId];
        WaitingUnset(model, item.seqId);
        assert promises[promise].None?;
        promises := promises[promise := Some(ClosedResponse(reason))];
        model := Apply(model, WriteFailed(i, reason));
        SettledMore(old(model), model, promise);
      } else {
        model := Apply(model, WriteFailed(i, reason));
        SettledKept(old(model), model);
      }
      pending := pending - {item.seqId};
    }

    /** The critical section of `do_read_body`. */
    method MatchResponse(seqId: u32, ghost response: RpcResponse) returns (promise: Option<nat>)
      requires Valid() && Enabled(model, Match(seqId, response))
      modifies this
      ensures Valid() && model == Apply(old(model), Match(seqId, response))
      ensures promise == if seqId in old(pending) then Some(old(pending)[seqId]) else None
      ensures promise.Some? ==> SeqOf(promise.value) == seqId
    {
      Step(model, Match(seqId, response));
      hide SeqOf, Encode;
      if seqId in pending {
        promise := Some(pending[seqId]);
        pending := pending - {seqId};
      } else {
        promise := None;
      }
      model := Apply(model, Match(seqId, response));
      SettledKept(old(model), model);
    }

    /** `pending->promise.set_value(resp)`: the promise is found unset. */
    method FulfilPromise(promise: nat, response: RpcResponse)
      requires Valid() && model.loop == Holding(promise, response)
      modifies this
      ensures Valid() && model == Apply(old(model), Fulfil)
      ensures old(|promises|) > promise && old(promises[promise]) == None
      ensures promises == old(promises)[promise := Some(response)]
    {
      Step(model, Fulfil);
      hide SeqOf, Encode;
      promises := promises[promise := Some(response)];
      model := Apply(model, Fulfil);
      SettledMore(old(model), model, promise);
    }

    /** The loop of `reject_all_pending`, in the order the map happens to have. Every
        promise it sets is found unset. */
    method SetWaiting(response: RpcResponse) returns (ghost order: seq<u32>)
      requires Valid()
      modifies this`promises
      ensures Lists(order, pending.Keys) && |promises| == |old(promises)|
      ensures forall c: nat :: c < |promises| ==>
                promises[c] == (if IsPending(model, c) then Some(response) else old(promises)[c])
    {
      hide SeqOf, Encode, WriteInv, NothingLost, HistoryInv, QueueMatches;
      var keys := pending.Keys;
      order := [];
      while keys != {}
        invariant keys <= pending.Keys && NoDup(order) && forall k :: k in order <==> k in pending.Keys && k !in keys
        invariant |promises| == |model.calls|
        invariant forall c: nat :: c < |promises| ==>
                    promises[c]
                    == (if IsPending(model, c) && model.seqs[c] !in keys then Some(response) else old(promises)[c])
        decreases keys
      {
        var k :| k in keys;
        var promise := pending[k];
        assert IsPending(model, promise);
        assert promises[promise].None?;
        promises := promises[promise := Some(response)];
        order := order + [k];
        keys := keys - {k};
      }
    }

    /** `reject_all_pending`: every waiting call is told the connection is closed. */
    method RejectAllPending(reason: Bytes) returns (ghost order: seq<u32>)
      requires Valid() && model.loop.Listening?
      modifies this
      ensures Enabled(old(model), RejectAll(order, reason)) && model == Apply(old(model), RejectAll(order, reason))
      ensures Valid() && pending == map[]
      ensures forall c: nat :: c < |promises| ==>
                promises[c]
                == (if old(IsPending(model, c)) then Some(RpcResponse(-10, reason, [])) else old(promises)[c])
    {
      order := SetWaiting(ClosedResponse(reason));
      hide Inv, SeqOf, Encode;
      pending := map[];
      Step(model, RejectAll(order, reason));
      model := Apply(model, RejectAll(order, reason));
      RejectedPromises(old(model), model, order, reason, old(promises), promises);
    }

    /** `call` from start to finish when no other thread moves: the request is
        registered under its own number and its frame is last in the queue. */
    method Call(request: RpcRequest) returns (promise: nat, startWrite: bool)
      requires Valid()
      modifies this
      ensures Valid()
      ensures promise == |old(model.calls)| && IsPending(model, promise)
      ensures |writeQueue| > 0
      ensures writeQueue[|writeQueue| - 1] == WriteItem(Encode(RequestMessage(SeqOf(promise), request)), SeqOf(promise))
      ensures model.queue == old(model.queue) + [promise] && startWrite <==> !old(writing)
    {
      hide Inv, SeqOf, Encode, PromisesMatch, RequestMessage;
      CallSteps(model, request);
      hide Apply, Enabled, IsPending;
      var seqId;
      seqId, promise := AllocateCall(request);
      RegisterCall(seqId, promise);
      var frame := Serializer.BuildRequestFrame(seqId, request);
      startWrite := EnqueueWrite(WriteItem(frame, seqId), promise);
    }
  }

  lemma SeqAt(m: State)
    requires Inv(m)
    ensures m.nextSeq == SeqOf(|m.calls|) && |m.seqs| == |m.calls|
  {
  }

  /** What the three steps of `call` do to the protocol, one after the other. */
  lemma CallSteps(m: State, q: RpcRequest)
    requires Inv(m)
    ensures var c := |m.calls|;
            var m1 := Apply(m, Allocate(q));
            && Enabled(m1, Register(c)) && m1.seqs[c] == SeqOf(c) && m1.writing == m.writing
            && var m2 := Apply(m1, Register(c));
               && Enabled(m2, Enqueue(c)) && m2.writing == m.writing && c < |m2.calls| && m2.calls[c] == q
               && var m3 := Apply(m2, Enqueue(c));
                  m3.queue == m.queue + [c] && c < |m3.calls| && m3.calls[c] == q && IsPending(m3, c)
  {
    hide SeqOf, WriteInv, PromiseInv, NothingLost, HistoryInv;
  }

  lemma FailedEffect(m: State, i: nat, reason: Bytes)
    requires Enabled(m, WriteFailed(i, reason))
    ensures var m' := Apply(m, WriteFailed(i, reason));
            var k := m.seqs[m.inFlight[i]];
            && m'.nextSeq == m.nextSeq && m'.queue == m.queue && m'.calls == m.calls && m'.writing == m.writing
            && m'.pending == m.pending - {k}
            && (k !in m.pending ==> m'.settled == m.settled)
            && (k in m.pending ==>
                  m'.settled == m.settled + [Settlement(m.pending[k], ClosedResponse(reason), WriteError)])
  {
  }

  lemma WaitingUnset(m: State, k: u32)
    requires Inv(m) && k in m.pending
    ensures var c := m.pending[k]; IsPending(m, c) && !IsSettled(m, c) && c < |m.calls|
  {
    hide SeqOf, WriteInv, NothingLost, HistoryInv;
    assert IsPending(m, m.pending[k]);
  }

  lemma SettledKept(m: State, m': State)
    requires m'.settled == m.settled
    ensures forall c: nat :: IsSettled(m', c) <==> IsSettled(m, c)
  {
  }

  lemma SettledMore(m: State, m': State, call: nat)
    requires |m'.settled| == |m.settled| + 1 && m'.settled[..|m.settled|] == m.settled
    requires m'.settled[|m.settled|].call == call
    ensures forall c: nat :: IsSettled(m', c) <==> IsSettled(m, c) || c == call
  {
    assert forall i :: 0 <= i < |m.settled| ==> m'.settled[i] == m.settled[i];
    forall c: nat | IsSettled(m, c) ensures IsSettled(m', c) {
      var i :| 0 <= i < |m.settled| && m.settled[i].call == c;
      assert m'.settled[i].call == c;
    }
  }

  lemma RejectedPromises(
    m: State, m': State, order: seq<u32>, reason: Bytes,
    before: seq<Option<RpcResponse>>, after: seq<Option<RpcResponse>>)
    requires Inv(m) && Enabled(m, RejectAll(order, reason)) && m' == Apply(m, RejectAll(order, reason))
    requires |before| == |after| == |m.calls|
    requires forall c: nat :: c < |before| ==> (before[c].Some? <==> IsSettled(m, c))
    requires forall i :: 0 <= i < |m.settled| ==>
               m.settled[i].call < |before| && before[m.settled[i].call] == Some(m.settled[i].response)
    requires forall c: nat :: c < |after| ==>
               after[c] == if IsPending(m, c) then Some(ClosedResponse(reason)) else before[c]
    ensures forall c: nat :: c < |after| ==> (after[c].Some? <==> IsSettled(m', c))
    ensures forall i :: 0 <= i < |m'.settled| ==>
              m'.settled[i].call < |after| && after[m'.settled[i].call] == Some(m'.settled[i].response)
  {
    hide SeqOf, WriteInv, NothingLost, HistoryInv;
    var n := |m.settled|;
    forall i | 0 <= i < |order|
      ensures m'.settled[n + i].call == m.pending[order[i]] && IsPending(m, m.pending[order[i]])
    {
      assert order[i] in order;
    }
    RejectSettles(m, m', order);
    forall i | 0 <= i < |m'.settled|
      ensures m'.settled[i].call < |after| && after[m'.settled[i].call] == Some(m'.settled[i].response)
    {
      if i < n {
        assert m'.settled[i] == m.settled[i];
        assert IsSettled(m, m.settled[i].call);
      } else {
        assert m'.settled[n + (i - n)].call == m.pending[order[i - n]];
      }
    }
  }
}
