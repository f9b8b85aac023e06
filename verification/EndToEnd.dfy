/** The composition: one client, one server connection and the server's thread pool,
    joined by two byte channels. Callers, both IO threads, the workers and the
    environment interleave in any order; the pool also serves other connections.

    A channel carries the bytes of the frames handed to its socket, in order, in
    pieces of any size. A write completes successfully only when the channel has
    taken all bytes handed to it; it may fail at any time, and then whatever the
    channel has not taken by then never arrives. */
module EndToEnd {
  import opened Common
  import opened Wire
  import opened Framing
  import opened Dispatch
  import Cl = ClientProtocol
  import Co = ConnectionProtocol
  import Po = PoolProtocol

  /** A task of the pool: one of this connection's messages, or somebody else's. */
  datatype Task = Mine(job: nat) | Foreign

  /** How far the task for one delivered message has got. */
  datatype Job =
    | Waiting
    | Escaped(services: Services)                                     // an uncaught exception
    | Computed(services: Services, response: RpcResponse)             // `process_request` returned
    | Sent(services: Services, response: RpcResponse, send: nat)      // inside or past `send`

  datatype State = State(
    client: Cl.State,
    requests: seq<Message>,     // history: frames handed to the client's socket
    toServer: Bytes,            // bytes the client-to-server channel has taken
    toServerBroken: bool,
    serverRead: ReadState,
    jobs: seq<Job>,             // one per message the server's read loop delivered
    submitted: nat,             // messages handed to the pool
    pool: Po.State<Task>,
    conn: Co.State,
    senders: seq<nat>,          // the job behind each `send`
    replies: seq<Message>,      // the frame of each `send`
    answers: seq<Message>,      // history: frames handed to the server's socket
    toClient: Bytes,
    toClientBroken: bool,
    clientRead: ReadState)

  datatype Action =
    | Caller(call: Cl.Action)
    | ClientStartWrite
    | ClientWriteDone(i: nat)
    | ClientWriteFailed(i: nat, reason: Bytes)
    | ToServer(bytes: Bytes)
    | ServerRead
    | ServerReadError
    | Submit
    | SubmitRefused
    | PoolStep(step: Po.Action<Task>)
    | Process(job: nat, world: Services)
    | Send(job: nat)
    | ConnStep(move: Co.Action)
    | ConnStartWrite
    | ConnWriteDone(i: nat)
    | ConnWriteFailed(i: nat)
    | ToClient(bytes: Bytes)
    | ClientRead(order: seq<u32>)
    | ClientReadError(order: seq<u32>, reason: Bytes)
    | ClientFulfil

  function Init(n: nat): State
  {
    State(Cl.Init(), [], [], false, READ_START, [], 0, Po.Init(n), Co.Init(), [], [], [], [], false, READ_START)
  }

  /** A call whose body fits a frame; its names may still be too long for theirs. */
  predicate CallFrames(r: RpcRequest) { |SerializeRequest(r)| < U32_SPAN }

  function RequestOf(c: Cl.State, call: nat): Message
    requires call < |c.calls|
  {
    RequestMessage(Cl.SeqOf(call), c.calls[call])
  }

  /** Some worker is running the task of job `k`. */
  ghost predicate Runs(s: State, k: nat)
  {
    exists w :: WorkerRuns(s, w, k)
  }

  predicate WorkerRuns(s: State, w: nat, k: nat)
  {
    && w < |s.pool.workers| && s.pool.workers[w].Running?
    && s.pool.workers[w].task < |s.pool.accepted|
    && s.pool.accepted[s.pool.workers[w].task] == Mine(k)
  }

  /** The body of the task has nothing left to do. */
  predicate JobDone(s: State, k: nat)
  {
    k < |s.jobs| &&
    match s.jobs[k]
    case Escaped(_) => true
    case Sent(_, _, send) => send < |s.conn.phase| && !s.conn.phase[send].Checked?
    case _ => false
  }

  /** A task body ends only when its job has nothing left to do, and other
      connections push their own tasks. */
  ghost predicate PoolMayStep(s: State, step: Po.Action<Task>)
  {
    match step
    case Push(t) => t == Foreign
    case EndBody(w) =>
      && w < |s.pool.workers| && s.pool.workers[w].Running? && s.pool.workers[w].task < |s.pool.accepted|
      && (s.pool.accepted[s.pool.workers[w].task].Mine? ==> JobDone(s, s.pool.accepted[s.pool.workers[w].task].job))
    case _ => true
  }

  /** What an action needs besides the parts it moves. */
  ghost predicate Guard(s: State, a: Action)
  {
    match a
    case Caller(call) => call.Register? || call.Enqueue? || (call.Allocate? && CallFrames(call.request))
    case ClientStartWrite => s.client.queue != [] ==> s.client.queue[0] < |s.client.calls|
    case ClientWriteDone(i) => !s.toServerBroken && s.toServer == EncodeAll(s.requests)
    case ToServer(bytes) => !s.toServerBroken && s.toServer + bytes <= EncodeAll(s.requests)
    case ServerRead => s.submitted == |s.jobs| && CanRead(s.serverRead, s.toServer)
    case ServerReadError => Reading(s.serverRead)
    case Submit => s.submitted < |s.jobs|
    case SubmitRefused => s.submitted < |s.jobs|
    case PoolStep(step) => PoolMayStep(s, step)
    case Process(k, world) =>
      k < |s.jobs| && k < |s.serverRead.delivered| && s.jobs[k].Waiting? && Runs(s, k) && HandlersFrame(world)
    case Send(k) => k < |s.jobs| && k < |s.serverRead.delivered| && s.jobs[k].Computed? && Runs(s, k)
    case ConnStep(move) => move.SendPush? || move.FireOnClose? || move.Close? || move.CloseSocket?
    case ConnStartWrite => s.conn.queue != [] ==> s.conn.queue[0] < |s.replies|
    case ConnWriteDone(i) => !s.toClientBroken && s.toClient == EncodeAll(s.answers)
    case ToClient(bytes) => !s.toClientBroken && s.toClient + bytes <= EncodeAll(s.answers)
    case ClientRead(_) => CanRead(s.clientRead, s.toClient) && s.client.loop.Listening?
    case ClientReadError(_, _) => Reading(s.clientRead)
    case _ => true
  }

  /** The message that the client's next read completion delivers, if it ends a body. */
  ghost function Incoming(s: State): Option<Message>
    requires CanRead(s.clientRead, s.toClient)
  {
    if s.clientRead.reader.AwaitBody? then
      Some(Message(s.clientRead.reader.header, Chunk(s.clientRead, s.toClient)))
    else None
  }

  ghost function ClientMove(s: State, a: Action): Option<Cl.Action>
    requires Guard(s, a)
  {
    match a
    case Caller(call) => Some(call)
    case ClientStartWrite => Some(Cl.StartWrite)
    case ClientWriteDone(i) => Some(Cl.WriteDone(i))
    case ClientWriteFailed(i, reason) => Some(Cl.WriteFailed(i, reason))
    case ClientRead(order) =>
      (match Incoming(s)
       case Some(m) =>
         (match DeserializeResponse(m.body)
          case Ok(r) => Some(Cl.Match(m.header.seqId, r))
          case Err(_) => Some(Cl.RejectAll(order, Ascii("bad response"))))
       case None =>
         if Read(s.clientRead, s.toClient).reader.BadMagic? then
           Some(Cl.RejectAll(order, Ascii("bad magic")))
         else None)
    case ClientReadError(order, reason) => Some(Cl.RejectAll(order, reason))
    case ClientFulfil => Some(Cl.Fulfil)
    case _ => None
  }

  ghost function ReplyFrame(s: State, k: nat): Message
    requires Guard(s, Send(k))
  {
    ResponseMessage(s.serverRead.delivered[k].header, s.jobs[k].response)
  }

  ghost function ConnMove(s: State, a: Action): Option<Co.Action>
    requires Guard(s, a)
  {
    match a
    case ServerRead => if Read(s.serverRead, s.toServer).reader.BadMagic? then Some(Co.ReadFailed) else None
    case ServerReadError => Some(Co.ReadFailed)
    case Send(k) => Some(Co.SendTest(Encode(ReplyFrame(s, k))))
    case ConnStep(move) => Some(move)
    case ConnStartWrite => Some(Co.StartWrite)
    case ConnWriteDone(i) => Some(Co.WriteDone(i))
    case ConnWriteFailed(i) => Some(Co.WriteFailed(i))
    case _ => None
  }

  ghost function PoolMove(s: State, a: Action): Option<Po.Action<Task>>
    requires Guard(s, a)
  {
    match a
    case Submit => Some(Po.Push(Mine(s.submitted)))
    case SubmitRefused => Some(Po.Refuse)
    case PoolStep(step) => Some(step)
    case _ => None
  }

  ghost predicate Enabled(s: State, a: Action)
  {
    && Guard(s, a)
    && (ClientMove(s, a).Some? ==> Cl.Enabled(s.client, ClientMove(s, a).value))
    && (ConnMove(s, a).Some? ==> Co.Enabled(s.conn, ConnMove(s, a).value))
    && (PoolMove(s, a).Some? ==> Po.Enabled(s.pool, PoolMove(s, a).value))
  }

  function JobAfter(reply: Reply, world: Services): Job
  {
    match reply
    case Respond(r) => Computed(world, r)
    case Escapes => Escaped(world)
  }

  /** What an action does to the channels, the readers and the jobs. */
  ghost function Between(s: State, a: Action): State
    requires Guard(s, a)
  {
    match a
    case ClientStartWrite =>
      if s.client.queue == [] then s else s.(requests := s.requests + [RequestOf(s.client, s.client.queue[0])])
    case ClientWriteFailed(_, _) => s.(toServerBroken := true)
    case ToServer(bytes) => s.(toServer := s.toServer + bytes)
    case ServerRead =>
      s.(serverRead := Read(s.serverRead, s.toServer),
         jobs := if s.serverRead.reader.AwaitBody? then s.jobs + [Waiting] else s.jobs)
    case ServerReadError => s.(serverRead := ReadError(s.serverRead))
    case Submit => s.(submitted := s.submitted + 1)
    case SubmitRefused => s.(serverRead := ReadError(s.serverRead))
    case Process(k, world) =>
      var m := s.serverRead.delivered[k];
      s.(jobs := s.jobs[k := JobAfter(ProcessRequest(world, m.header, m.body), world)])
    case Send(k) =>
      s.(replies := s.replies + [ReplyFrame(s, k)],
         senders := s.senders + [k],
         jobs := s.jobs[k := Sent(s.jobs[k].services, s.jobs[k].response, |s.replies|)])
    case ConnStartWrite =>
      if s.conn.queue == [] then s else s.(answers := s.answers + [s.replies[s.conn.queue[0]]])
    case ConnWriteFailed(_) => s.(toClientBroken := true)
    case ToClient(bytes) => s.(toClient := s.toClient + bytes)
    case ClientRead(_) =>
      var read := Read(s.clientRead, s.toClient);
      var bad := Incoming(s).Some? && DeserializeResponse(Incoming(s).value.body).Err?;
      s.(clientRead := if bad then ReadError(read) else read)
    case ClientReadError(_, _) => s.(clientRead := ReadError(s.clientRead))
    case _ => s
  }

  /** Every action moves each part by at most one step of that part's own protocol. */
  ghost function Apply(s: State, a: Action): State
    requires Enabled(s, a)
  {
    Between(s, a).(
      client := if ClientMove(s, a).Some? then Cl.Apply(s.client, ClientMove(s, a).value) else s.client,
      conn := if ConnMove(s, a).Some? then Co.Apply(s.conn, ConnMove(s, a).value) else s.conn,
      pool := if PoolMove(s, a).Some? then Po.Apply(s.pool, PoolMove(s, a).value) else s.pool)
  }

  // -------------------------------------------------------------- invariants

  ghost predicate PartsInv(s: State)
  {
    Cl.Inv(s.client) && Po.Inv(s.pool) && Co.Inv(s.conn)
  }

  /** Each channel carries a prefix of its frames, and its reader is inside it. */
  ghost predicate ChannelInv(read: ReadState, carried: Bytes, sent: seq<Message>)
  {
    AllWellFramed(sent) && carried <= EncodeAll(sent) && ReadInv(read) && read.consumed <= carried
  }

  /** The frames of the client are those of its calls, in the order they were handed over. */
  ghost predicate RequestInv(s: State)
  {
    && |s.requests| == |s.client.handed|
    && (forall i :: 0 <= i < |s.requests| ==>
          s.client.handed[i] < |s.client.calls| && s.requests[i] == RequestOf(s.client, s.client.handed[i]))
    && (forall c :: 0 <= c < |s.client.calls| ==> CallFrames(s.client.calls[c]))
  }

  ghost predicate JobOk(j: Job, m: Message)
  {
    match j
    case Waiting => true
    case Escaped(world) => HandlersFrame(world) && ProcessRequest(world, m.header, m.body) == Escapes
    case Computed(world, r) => HandlersFrame(world) && ProcessRequest(world, m.header, m.body) == Respond(r)
    case Sent(world, r, _) => HandlersFrame(world) && ProcessRequest(world, m.header, m.body) == Respond(r)
  }

  /** Every job's response is the one computed from its own message. */
  ghost predicate JobInv(s: State)
  {
    |s.jobs| == |s.serverRead.delivered|
    && forall k :: 0 <= k < |s.jobs| ==> JobOk(s.jobs[k], s.serverRead.delivered[k])
  }

  ghost predicate ReplyOk(s: State, i: nat)
    requires i < |s.senders| && i < |s.replies| && i < |s.conn.frames| && |s.jobs| == |s.serverRead.delivered|
  {
    var k := s.senders[i];
    && k < |s.jobs| && s.jobs[k].Sent? && s.jobs[k].send == i
    && s.replies[i] == ResponseMessage(s.serverRead.delivered[k].header, s.jobs[k].response)
    && WellFramed(s.replies[i])
    && s.conn.frames[i] == Encode(s.replies[i])
  }

  /** The frames of the server are the responses of its jobs, one `send` per job. */
  ghost predicate ReplyInv(s: State)
  {
    && |s.replies| == |s.senders| == |s.conn.frames|
    && |s.jobs| == |s.serverRead.delivered|
    && (forall i :: 0 <= i < |s.senders| ==> ReplyOk(s, i))
    && (forall k :: 0 <= k < |s.jobs| && s.jobs[k].Sent? ==>
          s.jobs[k].send < |s.senders| && s.senders[s.jobs[k].send] == k)
    && |s.answers| == |s.conn.handed|
    && (forall m :: 0 <= m < |s.answers| ==>
          s.conn.handed[m] < |s.replies| && s.answers[m] == s.replies[s.conn.handed[m]])
  }

  ghost predicate InPool(s: State, k: nat) { Mine(k) in s.pool.accepted }

  ghost predicate TaskDone(s: State, t: nat)
  {
    t < |s.pool.accepted| && (s.pool.accepted[t].Mine? ==> JobDone(s, s.pool.accepted[t].job))
  }

  /** Which message each task of the pool belongs to. */
  ghost predicate PoolLink(s: State)
  {
    && s.submitted <= |s.jobs|
    && (forall k: nat :: k < s.submitted ==> InPool(s, k))
    && OneTaskEach(s.pool.accepted, s.submitted)
    && (forall i :: 0 <= i < |s.pool.finished| ==> TaskDone(s, s.pool.finished[i]))
  }

  /** Only submitted messages have tasks, and no two tasks are for the same message. */
  ghost predicate OneTaskEach(accepted: seq<Task>, submitted: nat)
  {
    && (forall t :: 0 <= t < |accepted| && accepted[t].Mine? ==> accepted[t].job < submitted)
    && (forall t, u :: 0 <= t < u < |accepted| && accepted[t].Mine? ==> accepted[t] != accepted[u])
  }

  ghost predicate Inv(s: State)
  {
    && PartsInv(s)
    && ChannelInv(s.serverRead, s.toServer, s.requests)
    && ChannelInv(s.clientRead, s.toClient, s.answers)
    && RequestInv(s) && JobInv(s) && ReplyInv(s) && PoolLink(s)
  }

  lemma InitInv(n: nat)
    requires n >= 1
    ensures Inv(Init(n))
  {
    hide Cl.Inv, Po.Inv, Co.Inv;
    Cl.InitInv();
    Co.InitInv();
    Po.InitInv<Task>(n);
  }

  // ----------------------------------------------------------- the three parts

  lemma PartsStep(s: State, a: Action)
    requires PartsInv(s) && Enabled(s, a)
    ensures PartsInv(Apply(s, a))
  {
    hide Cl.Inv, Po.Inv, Co.Inv, Cl.Apply, Po.Apply, Co.Apply, ClientMove, ConnMove, PoolMove, Guard, Between;
    if ClientMove(s, a).Some? {
      Cl.Step(s.client, ClientMove(s, a).value);
    }
    if ConnMove(s, a).Some? {
      Co.Step(s.conn, ConnMove(s, a).value);
    }
    if PoolMove(s, a).Some? {
      Po.Step(s.pool, PoolMove(s, a).value);
    }
  }

  // --------------------------------------------------------------- the channels

  lemma RequestWellFramed(seqId: u32, r: RpcRequest)
    requires CallFrames(r)
    ensures WellFramed(RequestMessage(seqId, r))
  {
  }

  lemma ChannelGrows(read: ReadState, carried: Bytes, sent: seq<Message>, m: Message)
    requires ChannelInv(read, carried, sent) && WellFramed(m)
    ensures ChannelInv(read, carried, sent + [m])
  {
    hide ReadInv, WellFramed;
    EncodeAllPrefix(sent, sent + [m]);
    assert forall i :: 0 <= i < |sent| ==> (sent + [m])[i] == sent[i];
  }

  lemma ChannelReads(read: ReadState, carried: Bytes, sent: seq<Message>)
    requires ChannelInv(read, carried, sent) && CanRead(read, carried)
    ensures ChannelInv(Read(read, carried), carried, sent)
  {
    hide ReadInv, WellFramed;
    ReadInvStep(read, carried);
  }

  lemma ChannelFails(read: ReadState, carried: Bytes, sent: seq<Message>)
    requires ChannelInv(read, carried, sent)
    ensures ChannelInv(ReadError(read), carried, sent)
  {
    hide WellFramed, EncodeAll, SerializeHeader;
    assert EncodeAll(read.delivered) <= read.consumed;
  }

  lemma ServerChannelStep(s: State, a: Action)
    requires RequestInv(s) && ChannelInv(s.serverRead, s.toServer, s.requests) && Enabled(s, a)
    ensures var s' := Apply(s, a); ChannelInv(s'.serverRead, s'.toServer, s'.requests)
  {
    hide Cl.Apply, Co.Apply, Po.Apply, Cl.Enabled, Co.Enabled, Po.Enabled, Read, ReadError, ReadInv;
    hide WellFramed, EncodeAll, CallFrames, RequestMessage, HandlersFrame, ClientMove, ConnMove, PoolMove;
    match a
    case ClientStartWrite =>
      if s.client.queue != [] {
        RequestWellFramed(Cl.SeqOf(s.client.queue[0]), s.client.calls[s.client.queue[0]]);
        ChannelGrows(s.serverRead, s.toServer, s.requests, RequestOf(s.client, s.client.queue[0]));
      }
    case ServerRead => ChannelReads(s.serverRead, s.toServer, s.requests);
    case ServerReadError => ChannelFails(s.serverRead, s.toServer, s.requests);
    case SubmitRefused => ChannelFails(s.serverRead, s.toServer, s.requests);
    case _ =>
  }

  lemma ClientChannelStep(s: State, a: Action)
    requires ReplyInv(s) && ChannelInv(s.clientRead, s.toClient, s.answers) && Enabled(s, a)
    ensures var s' := Apply(s, a); ChannelInv(s'.clientRead, s'.toClient, s'.answers)
  {
    hide Cl.Apply, Co.Apply, Po.Apply, Cl.Enabled, Co.Enabled, Po.Enabled, Read, ReadError, ReadInv;
    hide WellFramed, EncodeAll, DeserializeResponse, HandlersFrame, ClientMove, ConnMove, PoolMove;
    match a
    case ConnStartWrite =>
      if s.conn.queue != [] {
        assert ReplyOk(s, s.conn.queue[0]);
        ChannelGrows(s.clientRead, s.toClient, s.answers, s.replies[s.conn.queue[0]]);
      }
    case ClientRead(order) =>
      ChannelReads(s.clientRead, s.toClient, s.answers);
      ChannelFails(Read(s.clientRead, s.toClient), s.toClient, s.answers);
    case ClientReadError(_, _) => ChannelFails(s.clientRead, s.toClient, s.answers);
    case _ =>
  }

  // ------------------------------------------------------------------ requests

  /** What a client step can change of its calls and of the frames it handed over. */
  lemma ClientGrows(c: Cl.State, a: Cl.Action)
    requires Cl.Enabled(c, a)
    ensures var c' := Cl.Apply(c, a);
            && c'.calls == (if a.Allocate? then c.calls + [a.request] else c.calls)
            && c'.handed == (if a.StartWrite? && c.queue != [] then c.handed + [c.queue[0]] else c.handed)
  {
  }

  lemma RequestStep(s: State, a: Action)
    requires RequestInv(s) && Enabled(s, a)
    ensures RequestInv(Apply(s, a))
  {
    hide Cl.Apply, Cl.Enabled, Po.Apply, Po.Enabled, Co.Apply, Co.Enabled, ConnMove, PoolMove, CallFrames;
    hide RequestMessage;
    if a.Caller? {
      ClientGrows(s.client, a.call);
    } else if a.ClientStartWrite? {
      ClientGrows(s.client, Cl.StartWrite);
    } else {
      RequestsUntouched(s, a);
      hide Apply, Enabled, Between, Guard, ClientMove;
    }
  }

  lemma RequestsUntouched(s: State, a: Action)
    requires Enabled(s, a) && !a.Caller? && !a.ClientStartWrite?
    ensures var s' := Apply(s, a);
            s'.requests == s.requests && s'.client.calls == s.client.calls && s'.client.handed == s.client.handed
  {
    hide Cl.Apply, Po.Apply, Co.Apply, Po.Enabled, Co.Enabled, ConnMove, PoolMove, EncodeAll, Read;
    hide DeserializeResponse;
    if ClientMove(s, a).Some? {
      ClientGrows(s.client, ClientMove(s, a).value);
    }
  }

  // ---------------------------------------------------------------------- jobs

  predicate TouchesJobs(a: Action) { a.Send? || a.Process? || a.ServerRead? }

  /** All other actions leave the jobs and the delivered messages alone. */
  lemma JobsUntouched(s: State, a: Action)
    requires Enabled(s, a) && !TouchesJobs(a)
    ensures Apply(s, a).jobs == s.jobs && Apply(s, a).serverRead.delivered == s.serverRead.delivered
  {
    hide Enabled, ClientMove, ConnMove, PoolMove, Cl.Apply, Po.Apply, Co.Apply;
    hide DeserializeResponse, Read, RequestOf, Incoming;
    assert Guard(s, a) by { Guarded(s, a); }
    hide Guard;
    match a
    case _ =>
  }

  lemma Guarded(s: State, a: Action)
    requires Enabled(s, a)
    ensures Guard(s, a)
  {
    hide Guard;
  }

  lemma JobRead(s: State)
    requires JobInv(s) && Enabled(s, ServerRead)
    ensures JobInv(Apply(s, ServerRead))
  {
    hide ClientMove, ConnMove, PoolMove, ProcessRequest, HandlersFrame, DeserializeHeader;
  }

  lemma JobProcess(s: State, k: nat, world: Services)
    requires JobInv(s) && Enabled(s, Process(k, world))
    ensures JobInv(Apply(s, Process(k, world)))
  {
    hide ClientMove, ConnMove, PoolMove, HandlersFrame, ProcessRequest, Runs;
  }

  lemma JobSend(s: State, k: nat)
    requires JobInv(s) && Enabled(s, Send(k))
    ensures JobInv(Apply(s, Send(k)))
  {
    hide ClientMove, ConnMove, PoolMove, HandlersFrame, ProcessRequest, Runs, Co.Apply, ResponseMessage;
  }

  lemma JobStep(s: State, a: Action)
    requires JobInv(s) && Enabled(s, a)
    ensures JobInv(Apply(s, a))
  {
    hide JobInv, Enabled, Apply;
    match a
    case ServerRead => JobRead(s);
    case Process(k, world) => JobProcess(s, k, world);
    case Send(k) => JobSend(s, k);
    case _ => JobsAsBefore(s, a);
  }

  lemma JobsAsBefore(s: State, a: Action)
    requires JobInv(s) && Enabled(s, a) && !TouchesJobs(a)
    ensures JobInv(Apply(s, a))
  {
    hide JobOk, Enabled, Apply;
    JobsUntouched(s, a);
  }

  /** The server's read loop has delivered a prefix of the client's frames. */
  lemma DeliveredIsRequest(s: State, k: nat)
    requires ChannelInv(s.serverRead, s.toServer, s.requests) && RequestInv(s) && k < |s.serverRead.delivered|
    ensures k < |s.client.handed| && s.client.handed[k] < |s.client.calls|
    ensures s.serverRead.delivered[k] == RequestOf(s.client, s.client.handed[k])
    ensures CallFrames(s.client.calls[s.client.handed[k]])
  {
    hide ReadInv, EncodeAll, Reassemble, WellFramed, RequestMessage;
    DeliveredPrefix(s.serverRead, s.toServer);
    ReassemblePrefix(s.toServer, s.requests);
  }

  /** Decoding a call's request gives the call back. */
  lemma RequestReadBack(seqId: u32, r: RpcRequest)
    requires RequestFits(r)
    ensures DeserializeRequest(RequestMessage(seqId, r).body) == Ok(r)
  {
    hide DeserializeRequest;
    RequestDecodes(r, []);
    assert SerializeRequest(r) + [] == SerializeRequest(r);
  }

  lemma ReplyWellFramed(s: State, k: nat)
    requires JobInv(s) && k < |s.jobs| && (s.jobs[k].Computed? || s.jobs[k].Sent?)
    ensures WellFramed(ResponseMessage(s.serverRead.delivered[k].header, s.jobs[k].response))
  {
    hide ProcessRequest, HandlersFrame;
    assert JobOk(s.jobs[k], s.serverRead.delivered[k]);
    ReplyFrames(s.jobs[k].services, s.serverRead.delivered[k].header, s.serverRead.delivered[k].body);
  }

  // ------------------------------------------------------------------- replies

  /** What a connection step can change of its frames. */
  lemma ConnGrows(c: Co.State, a: Co.Action)
    requires Co.Enabled(c, a)
    ensures var c' := Co.Apply(c, a);
            && c'.frames == (if a.SendTest? then c.frames + [a.frame] else c.frames)
            && c'.handed == (if a.StartWrite? && c.queue != [] then c.handed + [c.queue[0]] else c.handed)
            && |c'.phase| >= |c.phase|
            && (forall i :: 0 <= i < |c.phase| && !c.phase[i].Checked? ==> !c'.phase[i].Checked?)
  {
  }

  /** A step that keeps what the replies were built from. */
  lemma ReplyKept(s: State, s': State)
    requires ReplyInv(s)
    requires s'.replies == s.replies && s'.senders == s.senders && s'.conn.frames == s.conn.frames
    requires |s'.jobs| == |s'.serverRead.delivered| && s.serverRead.delivered <= s'.serverRead.delivered
    requires forall k :: 0 <= k < |s.jobs| && s.jobs[k].Sent? ==> s'.jobs[k] == s.jobs[k]
    requires forall k :: 0 <= k < |s'.jobs| && s'.jobs[k].Sent? ==> k < |s.jobs| && s.jobs[k].Sent?
    requires |s'.answers| == |s'.conn.handed|
    requires forall m :: 0 <= m < |s'.answers| ==>
               s'.conn.handed[m] < |s'.replies| && s'.answers[m] == s'.replies[s'.conn.handed[m]]
    ensures ReplyInv(s')
  {
    hide WellFramed, Encode, ResponseMessage;
    forall i | 0 <= i < |s'.senders| ensures ReplyOk(s', i) {
      assert ReplyOk(s, i);
    }
  }

  /** One more `send`, for a job that had none. */
  lemma ReplyAdded(s: State, s': State, k: nat, m: Message)
    requires ReplyInv(s) && k < |s.jobs| && !s.jobs[k].Sent?
    requires s'.serverRead == s.serverRead && s'.answers == s.answers && s'.conn.handed == s.conn.handed
    requires s'.replies == s.replies + [m] && s'.senders == s.senders + [k]
    requires s'.conn.frames == s.conn.frames + [Encode(m)]
    requires |s'.jobs| == |s.jobs| && s'.jobs[k].Sent? && s'.jobs[k].send == |s.replies|
    requires forall j :: 0 <= j < |s.jobs| && j != k ==> s'.jobs[j] == s.jobs[j]
    requires m == ResponseMessage(s.serverRead.delivered[k].header, s'.jobs[k].response) && WellFramed(m)
    ensures ReplyInv(s')
  {
    hide WellFramed, Encode, ResponseMessage;
    forall i | 0 <= i < |s'.senders| ensures ReplyOk(s', i) {
      if i < |s.senders| {
        assert ReplyOk(s, i);
        assert s.senders[i] != k;
      }
    }
  }

  lemma ReplySend(s: State, k: nat)
    requires ChannelInv(s.serverRead, s.toServer, s.requests) && RequestInv(s) && JobInv(s) && ReplyInv(s)
    requires Enabled(s, Send(k))
    ensures ReplyInv(Apply(s, Send(k)))
  {
    hide WellFramed, Encode, ResponseMessage, ChannelInv, RequestInv, JobOk, ReplyInv, Co.Apply, Co.Enabled, Runs;
    var m := ReplyFrame(s, k);
    ConnGrows(s.conn, Co.SendTest(Encode(m)));
    ReplyWellFramed(s, k);
    ReplyAdded(s, Apply(s, Send(k)), k, m);
  }

  lemma ReplyStartWrite(s: State)
    requires ReplyInv(s) && Enabled(s, ConnStartWrite)
    ensures ReplyInv(Apply(s, ConnStartWrite))
  {
    hide ReplyOk, Co.Apply, Co.Enabled;
    ConnGrows(s.conn, Co.StartWrite);
    ReplyKept(s, Apply(s, ConnStartWrite));
  }

  predicate TouchesReplies(a: Action) { a.Send? || a.Process? || a.ServerRead? || a.ConnStartWrite? }

  /** All other actions leave the jobs, the replies and the frames handed over alone. */
  lemma RepliesUntouched(s: State, a: Action)
    requires Enabled(s, a) && !TouchesReplies(a)
    ensures var s' := Apply(s, a);
            && s'.jobs == s.jobs && s'.serverRead.delivered == s.serverRead.delivered
            && s'.replies == s.replies && s'.senders == s.senders && s'.answers == s.answers
            && s'.conn.frames == s.conn.frames && s'.conn.handed == s.conn.handed
  {
    hide Cl.Apply, Po.Apply, Co.Apply, Cl.Enabled, Po.Enabled, ClientMove, PoolMove, EncodeAll, Read;
    if ConnMove(s, a).Some? {
      ConnGrows(s.conn, ConnMove(s, a).value);
    }
  }

  lemma ReplyStep(s: State, a: Action)
    requires ChannelInv(s.serverRead, s.toServer, s.requests) && RequestInv(s) && JobInv(s) && ReplyInv(s)
    requires Enabled(s, a)
    ensures ReplyInv(Apply(s, a))
  {
    hide ReplyOk, Cl.Apply, Po.Apply, Co.Apply, Cl.Enabled, Po.Enabled, Co.Enabled, ClientMove, PoolMove;
    hide EncodeAll, HandlersFrame, JobOk, RequestInv, ChannelInv, ProcessRequest, DeserializeHeader;
    if a.Send? {
      ReplySend(s, a.job);
    } else if a.ConnStartWrite? {
      ReplyStartWrite(s);
    } else if a.Process? {
      ReplyKept(s, Apply(s, a));
    } else if a.ServerRead? {
      ReplyRead(s);
    } else {
      RepliesUntouched(s, a);
      hide Enabled, Apply, Between, Guard;
      ReplyKept(s, Apply(s, a));
    }
  }

  lemma ReplyRead(s: State)
    requires JobInv(s) && ReplyInv(s) && Enabled(s, ServerRead)
    ensures ReplyInv(Apply(s, ServerRead))
  {
    hide ReplyOk, Co.Apply, Co.Enabled, JobOk, DeserializeHeader;
    if ConnMove(s, ServerRead).Some? {
      ConnGrows(s.conn, Co.ReadFailed);
    }
    ReplyKept(s, Apply(s, ServerRead));
  }

  // ------------------------------------------------------------- jobs and pool

  lemma PoolGrows(p: Po.State<Task>, a: Po.Action<Task>)
    requires Po.Enabled(p, a)
    ensures var p' := Po.Apply(p, a);
            && p'.accepted == (if a.Push? then p.accepted + [a.t] else p.accepted)
            && p'.finished == (if a.EndBody? then p.finished + [p.workers[a.w].task] else p.finished)
  {
  }

  /** Only waiting and computed jobs change. */
  lemma JobStays(s: State, a: Action, k: nat)
    requires k < |s.jobs| && (s.jobs[k].Escaped? || s.jobs[k].Sent?) && Enabled(s, a)
    ensures k < |Apply(s, a).jobs| && Apply(s, a).jobs[k] == s.jobs[k]
  {
    if TouchesJobs(a) {
      hide Cl.Apply, Po.Apply, Co.Apply, ClientMove, ConnMove, PoolMove, Read, HandlersFrame, ProcessRequest;
    } else {
      JobsUntouched(s, a);
      hide Enabled, Apply;
    }
  }

  /** A finished job stays finished: nothing recomputes it or takes its `send` back. */
  lemma JobDoneStays(s: State, a: Action, k: nat)
    requires JobDone(s, k) && Enabled(s, a)
    ensures JobDone(Apply(s, a), k)
  {
    hide Cl.Apply, Po.Apply, Co.Apply, Cl.Enabled, Po.Enabled, Co.Enabled, ClientMove, ConnMove, PoolMove;
    hide Guard, Between;
    JobStays(s, a, k);
    if ConnMove(s, a).Some? {
      ConnGrows(s.conn, ConnMove(s, a).value);
    }
  }

  lemma PoolLinkKept(s: State, s': State)
    requires PoolLink(s)
    requires s'.submitted == s.submitted && |s'.jobs| >= |s.jobs|
    requires s'.pool.accepted == s.pool.accepted || s'.pool.accepted == s.pool.accepted + [Foreign]
    requires s'.pool.finished == s.pool.finished
    requires forall k: nat :: JobDone(s, k) ==> JobDone(s', k)
    ensures PoolLink(s')
  {
    hide JobDone;
    forall k: nat | k < s'.submitted ensures InPool(s', k) {
      assert InPool(s, k);
    }
    forall i | 0 <= i < |s'.pool.finished| ensures TaskDone(s', s'.pool.finished[i]) {
      assert TaskDone(s, s.pool.finished[i]);
    }
  }

  lemma PoolLinkSubmit(s: State)
    requires PoolLink(s) && Enabled(s, Submit)
    ensures PoolLink(Apply(s, Submit))
  {
    hide Cl.Apply, Co.Apply, Po.Apply, Po.Enabled, JobDone;
    var s' := Apply(s, Submit);
    PoolGrows(s.pool, Po.Push(Mine(s.submitted)));
    assert s'.jobs == s.jobs && s'.conn == s.conn;
    forall k: nat | k < s'.submitted ensures InPool(s', k) {
      if k == s.submitted {
        assert s'.pool.accepted[|s.pool.accepted|] == Mine(k);
      } else {
        assert InPool(s, k);
      }
    }
    forall i | 0 <= i < |s'.pool.finished| ensures TaskDone(s', s'.pool.finished[i]) {
      assert TaskDone(s, s.pool.finished[i]);
      SameJobsDone(s, s');
    }
  }

  lemma SameJobsDone(s: State, s': State)
    requires s'.jobs == s.jobs && s'.conn == s.conn
    ensures forall k: nat :: JobDone(s', k) <==> JobDone(s, k)
  {
  }

  lemma PoolLinkEnd(s: State, w: nat)
    requires PoolLink(s) && Enabled(s, PoolStep(Po.EndBody(w)))
    ensures PoolLink(Apply(s, PoolStep(Po.EndBody(w))))
  {
    hide Cl.Apply, Co.Apply, Po.Apply;
    var s' := Apply(s, PoolStep(Po.EndBody(w)));
    PoolGrows(s.pool, Po.EndBody(w));
    forall k: nat | k < s'.submitted ensures InPool(s', k) {
      assert InPool(s, k);
    }
    forall i | 0 <= i < |s'.pool.finished| ensures TaskDone(s', s'.pool.finished[i]) {
      if i < |s.pool.finished| {
        assert TaskDone(s, s.pool.finished[i]);
      }
    }
  }

  predicate TouchesTasks(a: Action) { a.Submit? || (a.PoolStep? && a.step.EndBody?) }

  /** All other actions submit and finish nothing of this connection's. */
  lemma TasksUntouched(s: State, a: Action)
    requires Enabled(s, a) && !TouchesTasks(a)
    ensures var s' := Apply(s, a);
            && s'.submitted == s.submitted && s'.pool.finished == s.pool.finished
            && (s'.pool.accepted == s.pool.accepted || s'.pool.accepted == s.pool.accepted + [Foreign])
  {
    hide Cl.Apply, Po.Apply, Co.Apply, Cl.Enabled, Co.Enabled, ClientMove, ConnMove;
    hide EncodeAll, Read, HandlersFrame, ProcessRequest, DeserializeResponse;
    if PoolMove(s, a).Some? {
      PoolGrows(s.pool, PoolMove(s, a).value);
    }
  }

  lemma JobsGrow(s: State, a: Action)
    requires Enabled(s, a)
    ensures |Apply(s, a).jobs| >= |s.jobs|
  {
    if TouchesJobs(a) {
      hide Cl.Apply, Po.Apply, Co.Apply, ClientMove, ConnMove, PoolMove, Read, HandlersFrame, ProcessRequest;
    } else {
      JobsUntouched(s, a);
      hide Enabled, Apply;
    }
  }

  lemma PoolLinkStep(s: State, a: Action)
    requires PoolLink(s) && Enabled(s, a)
    ensures PoolLink(Apply(s, a))
  {
    hide Enabled, Apply, PoolLink, JobDone;
    if a.Submit? {
      PoolLinkSubmit(s);
    } else if a.PoolStep? && a.step.EndBody? {
      PoolLinkEnd(s, a.step.w);
    } else {
      forall k: nat | JobDone(s, k) ensures JobDone(Apply(s, a), k) {
        JobDoneStays(s, a, k);
      }
      TasksUntouched(s, a);
      JobsGrow(s, a);
      PoolLinkKept(s, Apply(s, a));
    }
  }

  // -------------------------------------------------------------- whole runs

  lemma Step(s: State, a: Action)
    requires Inv(s) && Enabled(s, a)
    ensures Inv(Apply(s, a))
  {
    hide PartsInv, ChannelInv, RequestInv, JobInv, ReplyInv, PoolLink, Enabled, Apply;
    PartsStep(s, a);
    ServerChannelStep(s, a);
    ClientChannelStep(s, a);
    RequestStep(s, a);
    JobStep(s, a);
    ReplyStep(s, a);
    PoolLinkStep(s, a);
  }

  ghost predicate RunOk(s: State, acts: seq<Action>)
    decreases |acts|
  {
    acts == [] || (Enabled(s, acts[0]) && RunOk(Apply(s, acts[0]), acts[1..]))
  }

  ghost function Exec(s: State, acts: seq<Action>): State
    requires RunOk(s, acts)
    decreases |acts|
  {
    if acts == [] then s else Exec(Apply(s, acts[0]), acts[1..])
  }

  lemma {:induction false} RunKeepsInv(s: State, acts: seq<Action>)
    requires Inv(s) && RunOk(s, acts)
    ensures Inv(Exec(s, acts))
    decreases |acts|
  {
    hide Inv, Enabled, Apply;
    if acts != [] {
      Step(s, acts[0]);
      RunKeepsInv(Apply(s, acts[0]), acts[1..]);
    }
  }

  lemma {:induction false} RunAppend(s: State, first: seq<Action>, second: seq<Action>)
    requires RunOk(s, first) && RunOk(Exec(s, first), second)
    ensures RunOk(s, first + second) && Exec(s, first + second) == Exec(Exec(s, first), second)
    decreases |first|
  {
    hide Enabled, Apply;
    if first == [] {
      assert first + second == second;
    } else {
      RunAppend(Apply(s, first[0]), first[1..], second);
      assert (first + second)[1..] == first[1..] + second;
    }
  }

  lemma RunOne(s: State, a: Action)
    requires Enabled(s, a)
    ensures RunOk(s, [a]) && Exec(s, [a]) == Apply(s, a)
  {
    hide Enabled, Apply;
    assert [a][1..] == [];
  }

  ghost predicate Reachable(s: State, n: nat, acts: seq<Action>)
  {
    RunOk(Init(n), acts) && s == Exec(Init(n), acts)
  }

  lemma ReachableInv(s: State, n: nat, acts: seq<Action>)
    requires n >= 1 && Reachable(s, n, acts)
    ensures Inv(s)
  {
    hide Inv, Init;
    InitInv(n);
    RunKeepsInv(Init(n), acts);
  }

  /** Job `k` is the processing of the request of call `c`, which is `q`: with the services
      registered at that moment, its response is what `process_request` makes of that
      call's header and bytes, and that is what dispatching the call's service, method and
      parameters gives whenever their sizes fit: the right reply in the sense of
      `RightReply`. */
  ghost predicate ServesCall(s: State, k: nat, c: nat, q: RpcRequest)
  {
    && k < |s.jobs| && (s.jobs[k].Computed? || s.jobs[k].Sent?)
    && ProcessRequest(s.jobs[k].services, RequestMessage(Cl.SeqOf(c), q).header, SerializeRequest(q))
       == Respond(s.jobs[k].response)
    && (RequestFits(q) ==>
          && ReplyTo(DispatchCall(s.jobs[k].services, q.service, q.meth, q.params)) == Respond(s.jobs[k].response)
          && RightReply(s.jobs[k].services, q, Respond(s.jobs[k].response)))
  }

  /** What processing a delivered request computes. */
  lemma JobComputes(s: State, k: nat)
    requires ChannelInv(s.serverRead, s.toServer, s.requests) && RequestInv(s) && JobInv(s)
    requires k < |s.jobs| && (s.jobs[k].Computed? || s.jobs[k].Sent?)
    ensures k < |s.client.handed| && s.client.handed[k] < |s.client.calls|
    ensures ServesCall(s, k, s.client.handed[k], s.client.calls[s.client.handed[k]])
  {
    hide ChannelInv, DeserializeRequest, HandlersFrame, DispatchCall, ReplyTo, CallFrames, RightReply;
    DeliveredIsRequest(s, k);
    var c := s.client.handed[k];
    assert JobOk(s.jobs[k], s.serverRead.delivered[k]);
    if RequestFits(s.client.calls[c]) {
      RequestReadBack(Cl.SeqOf(c), s.client.calls[c]);
      DispatchRight(s.jobs[k].services, s.client.calls[c]);
    }
  }

  /** A job ends without a response only when the handler of a registered service and method
      threw something that is not a `runtime_error`. */
  lemma JobEscapes(s: State, k: nat)
    requires ChannelInv(s.serverRead, s.toServer, s.requests) && RequestInv(s) && JobInv(s)
    requires k < |s.jobs| && s.jobs[k].Escaped?
    ensures k < |s.client.handed| && s.client.handed[k] < |s.client.calls|
    ensures var q, services := s.client.calls[s.client.handed[k]], s.jobs[k].services;
            RequestFits(q) ==>
              && q.service in services && q.meth in services[q.service].methods
              && services[q.service].handle(q.meth, q.params) == ThrowsOther
  {
    hide ChannelInv, DeserializeRequest, HandlersFrame, CallFrames, CText, Contains, NamesMislead, Classify;
    DeliveredIsRequest(s, k);
    var c := s.client.handed[k];
    assert JobOk(s.jobs[k], s.serverRead.delivered[k]);
    if RequestFits(s.client.calls[c]) {
      RequestReadBack(Cl.SeqOf(c), s.client.calls[c]);
      DispatchRight(s.jobs[k].services, s.client.calls[c]);
    }
  }

  lemma HandedOnce(c: Cl.State, j: nat, k: nat)
    requires Cl.Inv(c) && j < |c.handed| && k < |c.handed| && c.handed[j] == c.handed[k]
    ensures j == k
  {
    hide Cl.PromiseInv, Cl.HistoryInv, Cl.NothingLost, Cl.SeqInv;
    assert c.enqueued[j] == c.handed[j] && c.enqueued[k] == c.handed[k];
  }

  lemma ExitedPoolServed(s: State, k: nat) returns (i: nat)
    requires Po.Inv(s.pool) && PoolLink(s) && Po.AllExited(s.pool.workers) && k < s.submitted
    ensures JobDone(s, k) && FinishedAs(s, i, k)
  {
    hide JobDone, Po.Inv, Po.AllExited;
    Po.ExitedMeansDone(s.pool);
    assert InPool(s, k);
    var t :| 0 <= t < |s.pool.accepted| && s.pool.accepted[t] == Mine(k);
    assert t in s.pool.finished;
    i :| 0 <= i < |s.pool.finished| && s.pool.finished[i] == t;
    assert TaskDone(s, s.pool.finished[i]);
  }

  /** The `i`-th finished task is the processing of message `k`. */
  predicate FinishedAs(s: State, i: nat, k: nat)
  {
    i < |s.pool.finished| && s.pool.finished[i] < |s.pool.accepted| && s.pool.accepted[s.pool.finished[i]] == Mine(k)
  }

  /** No message is processed by two finished tasks, in any state. */
  lemma FinishedOnce(s: State, i: nat, j: nat, k: nat)
    requires Inv(s) && FinishedAs(s, i, k) && FinishedAs(s, j, k)
    ensures i == j
  {
    hide ChannelInv, RequestInv, JobInv, ReplyInv, Cl.Inv, Co.Inv, Po.CountersInv, Po.WakeInv, Po.ParallelInv;
  }

  /** When the pool has shut down, every request it was given was processed, once, and
      its response went to `send` unless an uncaught exception ended the task. */
  lemma ShutdownServesAll(s: State, n: nat, acts: seq<Action>, k: nat)
    requires n >= 1 && Reachable(s, n, acts) && Po.AllExited(s.pool.workers) && k < s.submitted
    ensures JobDone(s, k)
    ensures exists i: nat :: FinishedAs(s, i, k) && forall j: nat :: FinishedAs(s, j, k) ==> j == i
  {
    hide Reachable, JobDone, Po.Inv, Po.AllExited, PoolLink, Cl.Inv, Co.Inv, ChannelInv, RequestInv, JobInv;
    hide ReplyInv;
    ReachableInv(s, n, acts);
    var i := ExitedPoolServed(s, k);
    forall j: nat | FinishedAs(s, j, k) ensures j == i {
      FinishedOnce(s, i, j, k);
    }
  }
}
