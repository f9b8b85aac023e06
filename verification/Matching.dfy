/** The central promise of the composition: every answer is the answer to its own call.

    Sequence numbers are 32 bits wide and are reused, so the promise has a condition.
    `MatchExactly` gives it for one response, `EveryAnswerIsItsOwn` for one call. */
module Matching {
  import opened Common
  import opened Wire
  import opened Framing
  import opened Dispatch
  import Cl = ClientProtocol
  import Co = ConnectionProtocol
  import Po = PoolProtocol
  import opened EndToEnd

  // ------------------------------------------------------------ calls and frames

  /** The promise of call `c` has been set, and not because its write failed: after a
      failed write the request may still have reached the server. */
  predicate Through(client: Cl.State, c: nat)
  {
    exists i :: 0 <= i < |client.settled| && client.settled[i].call == c && !client.settled[i].how.WriteError?
  }

  /** Write errors belong to a broken channel, rejections to a stopped read loop. */
  ghost predicate HowInv(s: State)
  {
    forall i :: 0 <= i < |s.client.settled| ==>
      && (s.client.settled[i].how.WriteError? ==> s.toServerBroken)
      && (s.client.settled[i].how.Rejected? ==> s.client.loop.Stopped?)
  }

  /** The `m`-th frame the server handed to its socket answers call `c`. */
  predicate AnswerFor(s: State, m: nat, c: nat)
  {
    && m < |s.conn.handed| && s.conn.handed[m] < |s.senders|
    && s.senders[s.conn.handed[m]] < |s.client.handed|
    && s.client.handed[s.senders[s.conn.handed[m]]] == c
  }

  predicate MatchAt(s: State, m: nat, c: nat, r: RpcResponse)
  {
    m < |s.clientRead.delivered| && AnswerFor(s, m, c) && DeserializeResponse(s.clientRead.delivered[m].body) == Ok(r)
  }

  ghost predicate Matched(s: State, c: nat, r: RpcResponse)
  {
    exists m :: MatchAt(s, m, c, r)
  }

  /** The answer to call `c` has been delivered to the client's read loop. */
  ghost predicate Delivered(s: State, c: nat)
  {
    exists m: nat :: m < |s.clientRead.delivered| && AnswerFor(s, m, c)
  }

  /** The call that the `m`-th frame answers. */
  function CallAt(s: State, m: nat): nat
  {
    if m < |s.conn.handed| && s.conn.handed[m] < |s.senders| && s.senders[s.conn.handed[m]] < |s.client.handed| then
      s.client.handed[s.senders[s.conn.handed[m]]]
    else 0
  }

  predicate NumberedAt(delivered: seq<Message>, m: nat, c: nat)
  {
    m < |delivered| && delivered[m].header.seqId == Cl.SeqOf(c)
  }

  predicate BodyAt(delivered: seq<Message>, m: nat, r: RpcResponse)
  {
    m < |delivered| && DeserializeResponse(delivered[m].body) == Ok(r)
  }

  /** `frame` tells which frame each answer came in: different answers in different
      frames, each with the number of its call. */
  ghost predicate Assigned(c: Cl.State, delivered: seq<Message>, frame: map<nat, nat>)
  {
    && (forall x :: x in frame ==> NumberedAt(delivered, frame[x], x))
    && (forall x, y :: x in frame && y in frame && x != y ==> frame[x] != frame[y])
    && (c.loop.Holding? ==> c.loop.call in frame && BodyAt(delivered, frame[c.loop.call], c.loop.response))
    && (forall i :: 0 <= i < |c.settled| && c.settled[i].how.Answered? ==>
          c.settled[i].call in frame && BodyAt(delivered, frame[c.settled[i].call], c.settled[i].response))
  }

  ghost predicate AssignInv(s: State)
  {
    exists frame :: Assigned(s.client, s.clientRead.delivered, frame)
  }

  /** What matching keeps in every run. */
  ghost predicate MatchInv(s: State) { HowInv(s) && Cl.OwnerInv(s.client) && AssignInv(s) }

  lemma SeqOfInv(s: State)
    requires Inv(s)
    ensures Cl.SeqInv(s.client) && Cl.Inv(s.client)
  {
    hide ChannelInv, RequestInv, JobInv, ReplyInv, PoolLink, Po.Inv, Co.Inv;
    hide Cl.SeqInv, Cl.WriteInv, Cl.PromiseInv, Cl.NothingLost, Cl.HistoryInv;
  }

  // ------------------------------------------------------- what a step changes

  /** Only the read handler makes a promise an answer, and only errors anything else. */
  lemma SettledGrows(c: Cl.State, a: Cl.Action)
    requires Cl.Enabled(c, a)
    ensures var c' := Cl.Apply(c, a);
            && c.settled <= c'.settled
            && (c.loop.Stopped? ==> c'.loop.Stopped?)
            && (!a.Match? && c'.loop.Holding? ==> c'.loop == c.loop)
            && (forall i :: |c.settled| <= i < |c'.settled| ==>
                  && (c'.settled[i].how.Answered? ==> a.Fulfil?)
                  && (c'.settled[i].how.WriteError? ==> a.WriteFailed?)
                  && (c'.settled[i].how.Rejected? ==> c'.loop.Stopped?))
  {
  }

  lemma ConnHandedGrows(s: State, a: Action)
    requires Enabled(s, a)
    ensures s.conn.handed <= Apply(s, a).conn.handed
  {
    hide Co.Apply, Co.Enabled, ClientMove, ConnMove, PoolMove, Between, Guard;
    if ConnMove(s, a).Some? {
      ConnGrows(s.conn, ConnMove(s, a).value);
    }
  }

  lemma SendersGrow(s: State, a: Action)
    requires Enabled(s, a)
    ensures s.senders <= Apply(s, a).senders
  {
    hide Enabled, ClientMove, ConnMove, PoolMove, Cl.Apply, Po.Apply, Co.Apply;
    hide DeserializeResponse, Read, RequestOf, Incoming, ReplyFrame;
    Guarded(s, a);
    hide Guard;
  }

  lemma HandedGrows(s: State, a: Action)
    requires Enabled(s, a)
    ensures s.client.handed <= Apply(s, a).client.handed
  {
    hide Enabled, Apply;
    if a.Caller? {
      CallerGrows(s, a.call);
    } else if a.ClientStartWrite? {
      StartWriteGrows(s);
    } else {
      RequestsUntouched(s, a);
    }
  }

  predicate TouchesClientRead(a: Action) { a.ClientRead? || a.ClientReadError? }

  lemma ClientReadUntouched(s: State, a: Action)
    requires Enabled(s, a) && !TouchesClientRead(a)
    ensures Apply(s, a).clientRead == s.clientRead
  {
    hide Enabled, ClientMove, ConnMove, PoolMove, Cl.Apply, Po.Apply, Co.Apply;
    hide DeserializeResponse, Read, RequestOf, Incoming;
    assert Guard(s, a) by { Guarded(s, a); }
    hide Guard;
    match a
    case _ =>
  }

  /** The client's read loop only ever appends to what it delivered. */
  lemma ClientDelivers(s: State, a: Action)
    requires Enabled(s, a)
    ensures var d, d' := s.clientRead.delivered, Apply(s, a).clientRead.delivered;
            d' == if a.ClientRead? && Incoming(s).Some? then d + [Incoming(s).value] else d
  {
    if TouchesClientRead(a) {
      hide Cl.Apply, Cl.Enabled, ClientMove, ConnMove, PoolMove, DeserializeHeader;
    } else {
      hide Enabled, Apply;
      ClientReadUntouched(s, a);
    }
  }

  lemma AnswerForStays(s: State, a: Action, m: nat, c: nat)
    requires Enabled(s, a) && AnswerFor(s, m, c)
    ensures AnswerFor(Apply(s, a), m, c)
  {
    hide Enabled, Apply;
    ConnHandedGrows(s, a);
    SendersGrow(s, a);
    HandedGrows(s, a);
  }

  lemma MatchedStays(s: State, a: Action, c: nat, r: RpcResponse)
    requires Enabled(s, a) && Matched(s, c, r)
    ensures Matched(Apply(s, a), c, r)
  {
    hide Enabled, Apply, AnswerFor, DeserializeResponse;
    var m :| MatchAt(s, m, c, r);
    AnswerForStays(s, a, m, c);
    ClientDelivers(s, a);
    assert MatchAt(Apply(s, a), m, c, r);
  }

  /** A failed write marks its channel as broken, for good. */
  lemma BrokenStays(s: State, a: Action)
    requires Enabled(s, a)
    ensures s.toServerBroken || a.ClientWriteFailed? ==> Apply(s, a).toServerBroken
  {
    hide Enabled, ClientMove, ConnMove, PoolMove, Cl.Apply, Po.Apply, Co.Apply;
    hide DeserializeResponse, Read, RequestOf, Incoming;
    Guarded(s, a);
    hide Guard;
  }

  lemma OnlyFailedWrites(s: State, a: Action)
    requires Guard(s, a) && ClientMove(s, a).Some? && ClientMove(s, a).value.WriteFailed?
    ensures a.ClientWriteFailed?
  {
    hide Incoming, Read, DeserializeResponse, EncodeAll;
  }

  lemma HowStep(s: State, a: Action)
    requires HowInv(s) && Enabled(s, a)
    ensures HowInv(Apply(s, a))
  {
    hide Cl.Apply, Cl.Enabled, Po.Enabled, Co.Enabled, ClientMove, ConnMove, PoolMove, Between, Guard;
    BrokenStays(s, a);
    if ClientMove(s, a).Some? {
      SettledGrows(s.client, ClientMove(s, a).value);
      if ClientMove(s, a).value.WriteFailed? {
        OnlyFailedWrites(s, a);
      }
    }
  }

  lemma CallerGrows(s: State, call: Cl.Action)
    requires Enabled(s, Caller(call))
    ensures var c, c' := s.client, Apply(s, Caller(call)).client;
            c' == Cl.Apply(c, call) && |c.calls| <= |c'.calls| && c'.handed == c.handed
  {
    hide Cl.Apply;
    ClientGrows(s.client, call);
  }

  lemma StartWriteGrows(s: State)
    requires Enabled(s, ClientStartWrite)
    ensures var c, c' := s.client, Apply(s, ClientStartWrite).client;
            c' == Cl.Apply(c, Cl.StartWrite) && c'.calls == c.calls && c.handed <= c'.handed
  {
    hide Cl.Apply;
    ClientGrows(s.client, Cl.StartWrite);
  }

  // ------------------------------------------------------------ delivered frames

  /** A frame that the client's read loop delivered is the response to one of its calls,
      under that call's number. */
  lemma DeliveredAnswers(s: State, m: nat)
    requires Inv(s) && m < |s.clientRead.delivered|
    ensures var d := CallAt(s, m);
            && AnswerFor(s, m, d) && Cl.IsRegistered(s.client, d) && d < |s.client.calls|
            && NumberedAt(s.clientRead.delivered, m, d)
  {
    hide PartsInv, RequestInv, JobInv, PoolLink, ReadInv, EncodeAll, Reassemble, Cl.SeqOf;
    DeliveredPrefix(s.clientRead, s.toClient);
    ReassemblePrefix(s.toClient, s.answers);
    assert s.clientRead.delivered <= s.answers;
    var send := s.conn.handed[m];
    assert s.clientRead.delivered[m] == s.answers[m] == s.replies[send];
    assert ReplyOk(s, send);
    DeliveredIsRequest(s, s.senders[send]);
    HandedRegistered(s, s.senders[send]);
  }

  /** So is the frame that the next read completion delivers. */
  lemma IncomingAnswers(s: State) returns (d: nat)
    requires Inv(s) && CanRead(s.clientRead, s.toClient) && Incoming(s).Some?
    ensures AnswerFor(s, |s.clientRead.delivered|, d) && d < |s.client.calls|
    ensures Incoming(s).value.header.seqId == Cl.SeqOf(d) && Cl.IsRegistered(s.client, d)
  {
    hide PartsInv, RequestInv, JobInv, ReplyInv, PoolLink, ReadInv, EncodeAll;
    var t := s.(clientRead := Read(s.clientRead, s.toClient));
    ChannelReads(s.clientRead, s.toClient, s.answers);
    SameButRead(s, t);
    DeliveredAnswers(t, |s.clientRead.delivered|);
    d := CallAt(t, |s.clientRead.delivered|);
  }

  lemma SameButRead(s: State, t: State)
    requires Inv(s) && t == s.(clientRead := t.clientRead)
    requires ChannelInv(t.clientRead, s.toClient, s.answers)
    ensures Inv(t)
  {
    hide ChannelInv, Cl.Inv, Po.Inv, Co.Inv, JobOk, ReplyOk, JobDone;
    ReplyKept(s, t);
    SameJobsDone(s, t);
    PoolLinkKept(s, t);
    hide ReplyInv, PoolLink;
  }

  lemma HandedRegistered(s: State, k: nat)
    requires PartsInv(s) && k < |s.client.handed|
    ensures Cl.IsRegistered(s.client, s.client.handed[k])
  {
    hide Po.Inv, Co.Inv, Cl.SeqInv, Cl.PromiseInv, Cl.NothingLost, Cl.HistoryInv;
    assert s.client.enqueued[k] == s.client.handed[k];
  }

  /** No two frames answer the same call. */
  lemma OneAnswerEach(s: State, m: nat, m': nat, c: nat)
    requires Inv(s) && AnswerFor(s, m, c) && AnswerFor(s, m', c)
    ensures m == m'
  {
    hide ChannelInv, RequestInv, JobInv, PoolLink, Cl.Inv, Po.Inv, Co.CloseInv;
    var i, i' := s.conn.handed[m], s.conn.handed[m'];
    HandedOnce(s.client, s.senders[i], s.senders[i']);
    assert ReplyOk(s, i) && ReplyOk(s, i');
    assert s.conn.pushed[m] == i && s.conn.pushed[m'] == i';
  }

  lemma PendingNumber(c: Cl.State, k: u32)
    requires Cl.Inv(c) && k in c.pending
    ensures var x := c.pending[k]; Cl.IsPending(c, x) && Cl.SeqOf(x) == k && Cl.IsRegistered(c, x)
  {
    hide Cl.SeqOf, Cl.WriteInv, Cl.NothingLost, Cl.HistoryInv;
    assert Cl.IsPending(c, c.pending[k]);
  }

  // --------------------------------------------------------------- the frames used

  lemma MatchMeans(s: State, a: Action)
    requires Guard(s, a) && ClientMove(s, a).Some? && ClientMove(s, a).value.Match?
    ensures a.ClientRead? && CanRead(s.clientRead, s.toClient) && Incoming(s).Some?
    ensures ClientMove(s, a).value.seqId == Incoming(s).value.header.seqId
    ensures DeserializeResponse(Incoming(s).value.body) == Ok(ClientMove(s, a).value.response)
  {
    hide Incoming, Read, DeserializeResponse, EncodeAll, CanRead;
  }

  lemma AssignedMore(c: Cl.State, d: seq<Message>, d': seq<Message>, frame: map<nat, nat>)
    requires Assigned(c, d, frame) && d <= d'
    ensures Assigned(c, d', frame)
  {
    hide Cl.SeqOf, DeserializeResponse;
  }

  lemma AssignedKept(c: Cl.State, a: Cl.Action, d: seq<Message>, frame: map<nat, nat>)
    requires Assigned(c, d, frame) && Cl.Enabled(c, a) && !a.Match?
    ensures Assigned(Cl.Apply(c, a), d, frame)
  {
    hide NumberedAt, BodyAt;
    var c' := Cl.Apply(c, a);
    SettledGrows(c, a);
    forall i | 0 <= i < |c'.settled| && c'.settled[i].how.Answered?
      ensures c'.settled[i].call in frame && BodyAt(d, frame[c'.settled[i].call], c'.settled[i].response)
    {
      if i < |c.settled| {
        assert c'.settled[i] == c.settled[i];
      }
    }
  }

  lemma AssignedMatch(c: Cl.State, d: seq<Message>, m: Message, r: RpcResponse, frame: map<nat, nat>)
    returns (frame': map<nat, nat>)
    requires Cl.Inv(c) && Assigned(c, d, frame) && Cl.Enabled(c, Cl.Match(m.header.seqId, r))
    requires DeserializeResponse(m.body) == Ok(r)
    ensures Assigned(Cl.Apply(c, Cl.Match(m.header.seqId, r)), d + [m], frame')
  {
    hide Cl.Inv, Cl.SeqOf, DeserializeResponse;
    AssignedMore(c, d, d + [m], frame);
    frame' := frame;
    if m.header.seqId in c.pending {
      var x := c.pending[m.header.seqId];
      PendingNumber(c, m.header.seqId);
      WaitingUnsettled(c, x);
      frame' := frame[x := |d|];
      assert NumberedAt(d + [m], |d|, x) && BodyAt(d + [m], |d|, r);
      assert forall y :: y in frame ==> NumberedAt(d, frame[y], y);
    }
  }

  lemma WaitingUnsettled(c: Cl.State, x: nat)
    requires Cl.Inv(c) && Cl.IsPending(c, x)
    ensures forall i :: 0 <= i < |c.settled| ==> c.settled[i].call != x
  {
    hide Cl.SeqInv, Cl.WriteInv, Cl.NothingLost, Cl.HistoryInv;
  }

  lemma AssignStep(s: State, a: Action)
    requires Inv(s) && AssignInv(s) && Enabled(s, a)
    ensures AssignInv(Apply(s, a))
  {
    hide Inv, Cl.Apply, ClientMove, ConnMove, PoolMove, Assigned, Read, DeserializeResponse, Between, Guard;
    hide Incoming, CanRead;
    ClientDelivers(s, a);
    SeqOfInv(s);
    var frame :| Assigned(s.client, s.clientRead.delivered, frame);
    var d, d' := s.clientRead.delivered, Apply(s, a).clientRead.delivered;
    if ClientMove(s, a).Some? && ClientMove(s, a).value.Match? {
      MatchMeans(s, a);
      frame := AssignedMatch(s.client, d, Incoming(s).value, ClientMove(s, a).value.response, frame);
    } else {
      AssignedMore(s.client, d, d', frame);
      if ClientMove(s, a).Some? {
        AssignedKept(s.client, ClientMove(s, a).value, d', frame);
      }
    }
    assert Assigned(Apply(s, a).client, d', frame);
  }

  lemma OwnerKept(s: State, a: Action)
    requires Inv(s) && Cl.OwnerInv(s.client) && Enabled(s, a)
    ensures Cl.OwnerInv(Apply(s, a).client)
  {
    hide Inv, Cl.OwnerInv, Cl.Apply, Cl.Enabled, Between, ClientMove, ConnMove, PoolMove, Guard;
    if ClientMove(s, a).Some? {
      SeqOfInv(s);
      Cl.OwnerStep(s.client, ClientMove(s, a).value);
    }
  }

  lemma MatchStep(s: State, a: Action)
    requires Inv(s) && MatchInv(s) && Enabled(s, a)
    ensures MatchInv(Apply(s, a))
  {
    hide Inv, Enabled, Apply, HowInv, AssignInv, Cl.OwnerInv;
    HowStep(s, a);
    AssignStep(s, a);
    OwnerKept(s, a);
  }

  lemma {:induction false} RunKeepsMatch(s: State, acts: seq<Action>)
    requires Inv(s) && MatchInv(s) && RunOk(s, acts)
    ensures Inv(Exec(s, acts)) && MatchInv(Exec(s, acts))
    decreases |acts|
  {
    hide Inv, MatchInv, Enabled, Apply;
    if acts != [] {
      Step(s, acts[0]);
      MatchStep(s, acts[0]);
      RunKeepsMatch(Apply(s, acts[0]), acts[1..]);
    }
  }

  lemma InitMatch(n: nat)
    ensures MatchInv(Init(n))
  {
    assert Assigned(Init(n).client, [], map[]);
  }

  lemma ReachableMatch(s: State, n: nat, acts: seq<Action>)
    requires n >= 1 && Reachable(s, n, acts)
    ensures Inv(s) && MatchInv(s)
  {
    hide Inv, MatchInv, Init;
    InitInv(n);
    InitMatch(n);
    RunKeepsMatch(Init(n), acts);
  }

  // ------------------------------------------------------------- one response

  /** Where the response to call `d` goes. In any run, when the client's next read
      completion delivers it: it is handed to `d` if and only if somebody waits under the
      number and no later call has been registered under it; and it is handed to another
      call if and only if somebody waits and a later call has been. */
  lemma MatchExactly(s: State, n: nat, acts: seq<Action>, order: seq<u32>, d: nat, r: RpcResponse)
    requires n >= 1 && Reachable(s, n, acts) && Enabled(s, ClientRead(order)) && Incoming(s).Some?
    requires AnswerFor(s, |s.clientRead.delivered|, d) && DeserializeResponse(Incoming(s).value.body) == Ok(r)
    ensures Incoming(s).value.header.seqId == Cl.SeqOf(d)
    ensures var k, after := Cl.SeqOf(d), Apply(s, ClientRead(order)).client.loop;
            && (k in s.client.pending ==> (s.client.pending[k] == d <==> !Cl.Superseded(s.client, d)))
            && (after == Cl.Holding(d, r) <==> k in s.client.pending && !Cl.Superseded(s.client, d))
            && (after.Holding? && after.call != d <==> k in s.client.pending && Cl.Superseded(s.client, d))
  {
    hide Inv, AssignInv, HowInv, Cl.OwnerInv, Cl.Superseded, AnswerFor, Reachable, Cl.SeqOf;
    hide Read, DeserializeResponse, Between;
    ReachableMatch(s, n, acts);
    var e := IncomingAnswers(s);
    assert e == d by { OneCallPerFrame(s, |s.clientRead.delivered|, d, e); }
    SeqOfInv(s);
    if Cl.SeqOf(d) in s.client.pending {
      Cl.OwnerExactly(s.client, d);
    }
  }

  lemma OneCallPerFrame(s: State, m: nat, c: nat, d: nat)
    requires AnswerFor(s, m, c) && AnswerFor(s, m, d)
    ensures c == d
  {
  }

  // ------------------------------------------------------------------- one call

  /** When `c` registers, every earlier owner of its number is through with it. */
  ghost predicate CleanStart(client: Cl.State, c: nat)
  {
    forall d: nat {:trigger Cl.IsRegistered(client, d)} ::
      Cl.IsRegistered(client, d) && Cl.SeqOf(d) == Cl.SeqOf(c) ==> Through(client, d)
  }

  ghost predicate CleanStep(s: State, a: Action, c: nat)
  {
    a == Caller(Cl.Register(c)) ==> CleanStart(s.client, c)
  }

  /** In this run call `c` registers, if at all, with all earlier owners through. */
  ghost predicate StartsClean(s: State, acts: seq<Action>, c: nat)
    requires RunOk(s, acts)
    decreases |acts|
  {
    acts == [] || (CleanStep(s, acts[0], c) && StartsClean(Apply(s, acts[0]), acts[1..], c))
  }

  /** As many owners as answers: when all owners of a number have been answered, no
      response under that number is still on its way. */
  lemma NothingOnTheWay(s: State, k: u32)
    requires Inv(s) && MatchInv(s) && !s.client.loop.Stopped?
    requires forall d: nat {:trigger Cl.IsRegistered(s.client, d)} ::
               Cl.IsRegistered(s.client, d) && Cl.SeqOf(d) == k ==> Through(s.client, d)
    ensures forall d: nat :: Cl.IsRegistered(s.client, d) && Cl.SeqOf(d) == k ==> Delivered(s, d)
  {
    hide Inv, Cl.SeqOf, Assigned, Cl.OwnerInv, Through, Cl.IsRegistered, Delivered, Image;
    var frame :| Assigned(s.client, s.clientRead.delivered, frame);
    var owners := set d | d in s.client.registered && Cl.SeqOf(d) == k;
    forall d: nat ensures d in s.client.registered <==> Cl.IsRegistered(s.client, d) {
      RegisteredList(s, d);
    }
    forall x | x in owners ensures x in frame {
      ThroughHasFrame(s, x, frame);
    }
    var h := map x | x in owners :: CallAt(s, frame[x]);
    AnswersInjective(s, owners, frame, h);
    AnswersOwned(s, k, owners, frame, h);
    InjectiveFillsUp(owners, h);
    forall d: nat | Cl.IsRegistered(s.client, d) && Cl.SeqOf(d) == k ensures Delivered(s, d) {
      assert d in Image(owners, h);
      ImageDelivered(s, owners, frame, h, d);
    }
  }

  lemma AnswersInjective(s: State, owners: set<nat>, frame: map<nat, nat>, h: map<nat, nat>)
    requires Inv(s) && Assigned(s.client, s.clientRead.delivered, frame) && owners <= frame.Keys
    requires h == map x | x in owners :: CallAt(s, frame[x])
    ensures Injective(owners, h)
  {
    hide Inv, CallAt, AnswerFor, Cl.SeqOf, DeserializeResponse;
    forall x, y | x in owners && y in owners && x != y ensures h[x] != h[y] {
      DeliveredAnswers(s, frame[x]);
      DeliveredAnswers(s, frame[y]);
      if h[x] == h[y] {
        OneAnswerEach(s, frame[x], frame[y], h[x]);
      }
    }
  }

  lemma AnswersOwned(s: State, k: u32, owners: set<nat>, frame: map<nat, nat>, h: map<nat, nat>)
    requires Inv(s) && Assigned(s.client, s.clientRead.delivered, frame) && owners <= frame.Keys
    requires owners == set d | d in s.client.registered && Cl.SeqOf(d) == k
    requires h == map x | x in owners :: CallAt(s, frame[x])
    ensures Image(owners, h) <= owners
  {
    hide Inv, CallAt, AnswerFor, Cl.SeqOf, DeserializeResponse, Cl.IsRegistered;
    forall x | x in owners ensures CallAt(s, frame[x]) in owners {
      DeliveredAnswers(s, frame[x]);
      RegisteredList(s, CallAt(s, frame[x]));
      assert NumberedAt(s.clientRead.delivered, frame[x], x);
    }
    forall y | y in Image(owners, h) ensures y in owners {
      var x :| x in owners && h[x] == y;
    }
  }

  lemma ImageDelivered(s: State, owners: set<nat>, frame: map<nat, nat>, h: map<nat, nat>, d: nat)
    requires Inv(s) && Assigned(s.client, s.clientRead.delivered, frame) && owners <= frame.Keys
    requires h == (map x | x in owners :: CallAt(s, frame[x])) && d in Image(owners, h)
    ensures Delivered(s, d)
  {
    hide Inv, CallAt, AnswerFor, Cl.SeqOf, DeserializeResponse;
    var x :| x in owners && h[x] == d;
    assert NumberedAt(s.clientRead.delivered, frame[x], x);
    DeliveredAnswers(s, frame[x]);
  }

  lemma RegisteredList(s: State, d: nat)
    requires Inv(s)
    ensures d in s.client.registered <==> Cl.IsRegistered(s.client, d)
  {
    hide Inv, Cl.SeqInv, Cl.WriteInv, Cl.PromiseInv, Cl.NothingLost;
    SeqOfInv(s);
  }

  lemma ThroughHasFrame(s: State, x: nat, frame: map<nat, nat>)
    requires HowInv(s) && !s.client.loop.Stopped? && Through(s.client, x)
    requires Assigned(s.client, s.clientRead.delivered, frame)
    ensures x in frame && NumberedAt(s.clientRead.delivered, frame[x], x)
  {
    hide Cl.SeqOf, DeserializeResponse;
    var i :| 0 <= i < |s.client.settled| && s.client.settled[i].call == x && !s.client.settled[i].how.WriteError?;
    assert s.client.settled[i].how.Answered?;
  }

  /** The answers to all earlier owners of the number of `c` have been delivered. */
  ghost predicate Unrivalled(s: State, c: nat)
  {
    s.client.loop.Stopped?
    || forall d: nat :: Cl.RegisteredBefore(s.client, d, c) && Cl.SeqOf(d) == Cl.SeqOf(c) ==> Delivered(s, d)
  }

  /** What the read loop gives the promise of `c` is the body of a frame that answers `c`. */
  ghost predicate OwnAnswer(s: State, c: nat)
  {
    && (s.client.loop.Holding? && s.client.loop.call == c ==> Matched(s, c, s.client.loop.response))
    && (forall i :: 0 <= i < |s.client.settled| && s.client.settled[i].how.Answered? ==>
          s.client.settled[i].call == c ==> Matched(s, c, s.client.settled[i].response))
  }

  ghost predicate CallInv(s: State, c: nat)
  {
    (Cl.IsRegistered(s.client, c) ==> Unrivalled(s, c)) && OwnAnswer(s, c)
  }

  lemma ThroughIsDone(client: Cl.State, c: nat)
    requires Cl.Inv(client) && Through(client, c)
    ensures Cl.IsRegistered(client, c) && Cl.IsSettled(client, c) && !Cl.IsPending(client, c)
  {
    hide Cl.SeqInv, Cl.WriteInv, Cl.NothingLost, Cl.HistoryInv;
  }

  lemma ThroughStays(c: Cl.State, a: Cl.Action, x: nat)
    requires Cl.Enabled(c, a) && Through(c, x)
    ensures Through(Cl.Apply(c, a), x)
  {
    hide Cl.Apply, Cl.Enabled;
    SettledGrows(c, a);
    var i :| 0 <= i < |c.settled| && c.settled[i].call == x && !c.settled[i].how.WriteError?;
    assert Cl.Apply(c, a).settled[i] == c.settled[i];
  }

  /** Who registers in a step. */
  lemma RegisteredBy(c: Cl.State, a: Cl.Action, d: nat)
    requires Cl.SeqInv(c) && Cl.Enabled(c, a)
    ensures Cl.IsRegistered(Cl.Apply(c, a), d) <==> Cl.IsRegistered(c, d) || a == Cl.Register(d)
  {
    hide Cl.SeqOf;
  }

  lemma DeliveredStays(s: State, a: Action, c: nat)
    requires Enabled(s, a) && Delivered(s, c)
    ensures Delivered(Apply(s, a), c)
  {
    hide Enabled, Apply, AnswerFor;
    var m: nat :| m < |s.clientRead.delivered| && AnswerFor(s, m, c);
    AnswerForStays(s, a, m, c);
    ClientDelivers(s, a);
  }

  /** Who was registered before `c` is settled once `c` is registered. */
  lemma BeforeKept(c: Cl.State, a: Cl.Action, d: nat, x: nat)
    requires Cl.Inv(c) && Cl.Enabled(c, a) && Cl.RegisteredBefore(Cl.Apply(c, a), d, x)
    ensures Cl.IsRegistered(c, d)
    ensures Cl.IsRegistered(c, x) ==> Cl.RegisteredBefore(c, d, x)
  {
    hide Cl.SeqOf, Cl.SeqInv, Cl.WriteInv, Cl.PromiseInv, Cl.NothingLost;
    assert Cl.Apply(c, a).registered == if a.Register? then c.registered + [a.call] else c.registered;
    assert a.Register? ==> !Cl.IsRegistered(c, a.call);
  }

  lemma BeforeInRun(s: State, a: Action, d: nat, c: nat)
    requires Inv(s) && Enabled(s, a) && Cl.RegisteredBefore(Apply(s, a).client, d, c)
    ensures Cl.IsRegistered(s.client, c) ==> Cl.RegisteredBefore(s.client, d, c)
    ensures !Cl.IsRegistered(s.client, c) ==> a == Caller(Cl.Register(c)) && Cl.IsRegistered(s.client, d)
  {
    hide Inv, Cl.Apply, Cl.Enabled, Cl.RegisteredBefore, Between, ClientMove, ConnMove, PoolMove, Guard;
    hide Cl.IsRegistered;
    SeqOfInv(s);
    if ClientMove(s, a).Some? {
      var move := ClientMove(s, a).value;
      BeforeKept(s.client, move, d, c);
      LaterIsRegistered(Cl.Apply(s.client, move), d, c) by { Step(s, a); SeqOfInv(Apply(s, a)); }
      RegisteredBy(s.client, move, c);
      if move.Register? {
        RegistersOnlyCaller(s, a);
      }
    } else {
      LaterIsRegistered(s.client, d, c);
    }
  }

  lemma LaterIsRegistered(c: Cl.State, d: nat, x: nat)
    requires Cl.Inv(c) && Cl.RegisteredBefore(c, d, x)
    ensures Cl.IsRegistered(c, x) && Cl.IsRegistered(c, d)
  {
    hide Cl.SeqInv, Cl.WriteInv, Cl.PromiseInv, Cl.NothingLost;
  }

  lemma RegistersOnlyCaller(s: State, a: Action)
    requires Guard(s, a) && ClientMove(s, a).Some? && ClientMove(s, a).value.Register?
    ensures a == Caller(ClientMove(s, a).value)
  {
    hide Incoming, Read, DeserializeResponse, EncodeAll;
  }

  lemma UnrivalledStep(s: State, a: Action, c: nat)
    requires Inv(s) && MatchInv(s) && CallInv(s, c) && Enabled(s, a) && CleanStep(s, a, c)
    ensures Unrivalled(Apply(s, a), c)
  {
    hide Inv, Enabled, Apply, Delivered, HowInv, AssignInv, Cl.OwnerInv, Cl.IsRegistered, Cl.SeqOf, OwnAnswer;
    hide Cl.RegisteredBefore, Through;
    var s' := Apply(s, a);
    StopStays(s, a);
    if !s'.client.loop.Stopped? {
      forall d: nat | Cl.RegisteredBefore(s'.client, d, c) && Cl.SeqOf(d) == Cl.SeqOf(c) ensures Delivered(s', d) {
        BeforeInRun(s, a, d, c);
        if !Cl.IsRegistered(s.client, c) {
          NothingOnTheWay(s, Cl.SeqOf(c));
        }
        DeliveredStays(s, a, d);
      }
    }
  }

  lemma StopStays(s: State, a: Action)
    requires Enabled(s, a)
    ensures s.client.loop.Stopped? ==> Apply(s, a).client.loop.Stopped?
    ensures s.client.settled <= Apply(s, a).client.settled
  {
    hide Cl.Apply, Cl.Enabled, ClientMove, ConnMove, PoolMove, Between, Guard;
    if ClientMove(s, a).Some? {
      SettledGrows(s.client, ClientMove(s, a).value);
    }
  }

  /** Everything but a match and its fulfilment keeps what the answers rest on. */
  lemma OwnKept(s: State, a: Action, c: nat)
    requires OwnAnswer(s, c) && Enabled(s, a)
    requires ClientMove(s, a).Some? ==> !ClientMove(s, a).value.Match? && !ClientMove(s, a).value.Fulfil?
    ensures OwnAnswer(Apply(s, a), c)
  {
    hide Matched, Cl.Apply, Co.Apply, Po.Apply, ClientMove, ConnMove, PoolMove, Between, Guard;
    var s' := Apply(s, a);
    if ClientMove(s, a).Some? {
      SettledGrows(s.client, ClientMove(s, a).value);
    }
    forall r | Matched(s, c, r) ensures Matched(s', c, r) {
      MatchedStays(s, a, c, r);
    }
    assert forall i :: 0 <= i < |s'.client.settled| && s'.client.settled[i].how.Answered? ==>
        i < |s.client.settled| && s'.client.settled[i] == s.client.settled[i];
  }

  lemma OwnFulfil(s: State, c: nat)
    requires OwnAnswer(s, c) && Enabled(s, ClientFulfil)
    ensures OwnAnswer(Apply(s, ClientFulfil), c)
  {
    hide Matched;
    var s' := Apply(s, ClientFulfil);
    forall r | Matched(s, c, r) ensures Matched(s', c, r) {
      MatchedStays(s, ClientFulfil, c, r);
    }
  }

  /** A response that finds an unrivalled call is that call's own. */
  lemma FoundIsOwn(s: State, c: nat, d: nat)
    requires Inv(s) && MatchInv(s) && CallInv(s, c) && s.client.loop.Listening?
    requires AnswerFor(s, |s.clientRead.delivered|, d) && Cl.IsRegistered(s.client, d)
    requires Cl.SeqOf(d) in s.client.pending && s.client.pending[Cl.SeqOf(d)] == c
    ensures d == c
  {
    hide Inv, AssignInv, HowInv, Cl.OwnerInv, AnswerFor, Cl.SeqOf, Cl.Superseded, Cl.RegisteredBefore, OwnAnswer;
    hide Cl.IsRegistered, Cl.IsPending;
    SeqOfInv(s);
    PendingNumber(s.client, Cl.SeqOf(d));
    Cl.OwnerExactly(s.client, d);
    if d != c {
      var m: nat :| m < |s.clientRead.delivered| && AnswerFor(s, m, d);
      OneAnswerEach(s, m, |s.clientRead.delivered|, d);
    }
  }

  /** The match step: its frame answers the call whose entry it takes. */
  lemma OwnMatch(s: State, order: seq<u32>, c: nat)
    requires Inv(s) && MatchInv(s) && CallInv(s, c) && Enabled(s, ClientRead(order))
    requires ClientMove(s, ClientRead(order)).Some? && ClientMove(s, ClientRead(order)).value.Match?
    ensures OwnAnswer(Apply(s, ClientRead(order)), c)
  {
    hide Inv, AssignInv, HowInv, Cl.OwnerInv, Matched, Read, DeserializeResponse, Between, Unrivalled, AnswerFor;
    hide Cl.IsRegistered, Cl.SeqOf;
    var a := ClientRead(order);
    var s' := Apply(s, a);
    var m := Incoming(s).value;
    forall r | Matched(s, c, r) ensures Matched(s', c, r) {
      MatchedStays(s, a, c, r);
    }
    if m.header.seqId in s.client.pending && s.client.pending[m.header.seqId] == c {
      var d := IncomingAnswers(s);
      FoundIsOwn(s, c, d);
      NewMatch(s, order, d);
    }
  }

  lemma NewMatch(s: State, order: seq<u32>, d: nat)
    requires Enabled(s, ClientRead(order)) && Incoming(s).Some? && DeserializeResponse(Incoming(s).value.body).Ok?
    requires AnswerFor(s, |s.clientRead.delivered|, d)
    ensures Matched(Apply(s, ClientRead(order)), d, DeserializeResponse(Incoming(s).value.body).value)
  {
    hide Enabled, Apply, AnswerFor, DeserializeResponse;
    AnswerForStays(s, ClientRead(order), |s.clientRead.delivered|, d);
    ClientDelivers(s, ClientRead(order));
    assert MatchAt(Apply(s, ClientRead(order)), |s.clientRead.delivered|, d,
                   DeserializeResponse(Incoming(s).value.body).value);
  }

  lemma OwnStep(s: State, a: Action, c: nat)
    requires Inv(s) && MatchInv(s) && CallInv(s, c) && Enabled(s, a)
    ensures OwnAnswer(Apply(s, a), c)
  {
    hide Inv, Enabled, Apply, OwnAnswer, MatchInv, Unrivalled, Cl.IsRegistered;
    Guarded(s, a);
    hide Guard;
    if a.ClientFulfil? {
      OwnFulfil(s, c);
    } else if ClientMove(s, a).Some? && ClientMove(s, a).value.Match? {
      MatchMeans(s, a);
      OwnMatch(s, a.order, c);
    } else {
      if ClientMove(s, a).Some? && ClientMove(s, a).value.Fulfil? {
        NoFulfil(s, a);
      }
      OwnKept(s, a, c);
    }
  }

  lemma NoFulfil(s: State, a: Action)
    requires Guard(s, a) && ClientMove(s, a).Some? && ClientMove(s, a).value.Fulfil?
    ensures a.ClientFulfil?
  {
    hide Incoming, Read, DeserializeResponse, EncodeAll;
  }

  lemma {:induction false} RunKeepsCall(s: State, acts: seq<Action>, c: nat)
    requires Inv(s) && MatchInv(s) && CallInv(s, c) && RunOk(s, acts) && StartsClean(s, acts, c)
    ensures CallInv(Exec(s, acts), c)
    decreases |acts|
  {
    hide Inv, MatchInv, Enabled, Apply, CleanStep, Unrivalled, OwnAnswer, Cl.IsRegistered;
    if acts != [] {
      UnrivalledStep(s, acts[0], c);
      OwnStep(s, acts[0], c);
      Step(s, acts[0]);
      MatchStep(s, acts[0]);
      RunKeepsCall(Apply(s, acts[0]), acts[1..], c);
    }
  }

  lemma InitCall(n: nat, c: nat)
    ensures CallInv(Init(n), c)
  {
  }

  // ---------------------------------------------------------------- whole runs

  /** Call `x.call` was served by job `k`, and its future holds what decoding that job's
      serialized response gives: the response itself whenever that fits its fields. */
  ghost predicate AnsweredBy(s: State, x: Cl.Settlement, k: nat)
  {
    && x.call < |s.client.calls|
    && k < |s.jobs| && k < |s.client.handed| && s.client.handed[k] == x.call
    && s.jobs[k].Sent? && ServesCall(s, k, x.call, s.client.calls[x.call])
    && DeserializeResponse(SerializeResponse(s.jobs[k].response)) == Ok(x.response)
    && (ResponseFits(s.jobs[k].response) ==> x.response == s.jobs[k].response)
  }

  lemma AnswerFound(s: State, i: nat) returns (k: nat)
    requires Inv(s) && i < |s.client.settled| && s.client.settled[i].how.Answered?
    requires OwnAnswer(s, s.client.settled[i].call)
    ensures AnsweredBy(s, s.client.settled[i], k)
  {
    hide PartsInv, RequestInv, JobInv, PoolLink, DeserializeResponse, ReadInv, EncodeAll, Reassemble, ServesCall;
    var x := s.client.settled[i];
    var m: nat :| MatchAt(s, m, x.call, x.response);
    DeliveredPrefix(s.clientRead, s.toClient);
    ReassemblePrefix(s.toClient, s.answers);
    assert s.clientRead.delivered <= s.answers;
    var send := s.conn.handed[m];
    assert s.clientRead.delivered[m] == s.answers[m] == s.replies[send];
    k := s.senders[send];
    assert ReplyOk(s, send);
    JobComputes(s, k);
    SurvivesExactly(s.jobs[k].response);
  }

  lemma JobsWithinHanded(s: State)
    requires Inv(s)
    ensures |s.jobs| <= |s.client.handed|
  {
    hide PartsInv, ChannelInv, RequestInv, ReplyInv, PoolLink, JobOk;
    if s.jobs != [] {
      DeliveredIsRequest(s, |s.jobs| - 1);
    }
  }

  /** The central promise. Over every interleaving of callers, IO threads, workers and
      channels, and however long it runs: if, when a call registered, the earlier owners of
      its number were through with it, then a future of that call that the read loop
      resolved holds the response computed from that same call's request, however the pool
      reordered the work and whatever other calls did. */
  lemma EveryAnswerIsItsOwn(s: State, n: nat, acts: seq<Action>, i: nat)
    requires n >= 1 && Reachable(s, n, acts)
    requires i < |s.client.settled| && s.client.settled[i].how.Answered?
    requires StartsClean(Init(n), acts, s.client.settled[i].call)
    ensures exists k :: AnsweredBy(s, s.client.settled[i], k)
  {
    hide Inv, MatchInv, AnsweredBy, Init, StartsClean, Unrivalled, OwnAnswer, Cl.IsRegistered;
    InitInv(n);
    InitMatch(n);
    InitCall(n, s.client.settled[i].call);
    RunKeepsCall(Init(n), acts, s.client.settled[i].call);
    ReachableInv(s, n, acts);
    var k := AnswerFound(s, i);
  }

  /** In any run, no call's request is served by two jobs. */
  lemma ServedOnce(s: State, n: nat, acts: seq<Action>)
    requires n >= 1 && Reachable(s, n, acts)
    ensures |s.jobs| <= |s.client.handed|
    ensures forall j, k :: 0 <= j < k < |s.jobs| ==> s.client.handed[j] != s.client.handed[k]
  {
    hide Reachable, Cl.Inv, Po.Inv, Co.Inv, ChannelInv, RequestInv, JobInv, ReplyInv, PoolLink;
    ReachableInv(s, n, acts);
    JobsWithinHanded(s);
    forall j, k | 0 <= j < k < |s.jobs| ensures s.client.handed[j] != s.client.handed[k] {
      if s.client.handed[j] == s.client.handed[k] {
        HandedOnce(s.client, j, k);
      }
    }
  }
}
