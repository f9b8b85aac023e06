/** The header/body read loop that the server connection and the client share:
    read exactly 20 bytes, check the magic word, read exactly `bodySize` bytes,
    hand the message up, and start again. */
module Framing {
  import opened Wire

  datatype Message = Message(header: RpcHeader, body: Bytes)

  predicate WellFramed(m: Message)
  {
    m.header.magic == MAGIC && m.header.bodySize == |m.body|
  }

  predicate AllWellFramed(ms: seq<Message>)
  {
    forall i :: 0 <= i < |ms| ==> WellFramed(ms[i])
  }

  function Encode(m: Message): Bytes
  {
    SerializeHeader(m.header) + m.body
  }

  function EncodeAll(ms: seq<Message>): Bytes
  {
    if ms == [] then [] else Encode(ms[0]) + EncodeAll(ms[1..])
  }

  // ------------------------------------------------------ requests and responses

  /** The frame `call` builds. */
  function RequestMessage(seqId: u32, request: RpcRequest): Message
  {
    var body := SerializeRequest(request);
    Message(RpcHeader(MAGIC, VERSION, MSG_REQUEST, SER_PROTOBUF, FLAG_NONE, seqId, |body| % U32_SPAN, 0), body)
  }

  /** The frame `send_response` builds. */
  function ResponseMessage(to: RpcHeader, response: RpcResponse): Message
  {
    var body := SerializeResponse(response);
    Message(
      RpcHeader(MAGIC, VERSION, if response.errorCode == 0 then MSG_RESPONSE else MSG_RPC_ERROR,
                to.serializer, FLAG_NONE, to.seqId, |body| % U32_SPAN, 0),
      body)
  }

  /** The bytes of a request frame: magic word, version, type REQUEST, protobuf, no flags,
      the call's number, the length of the body, no checksum, the body. */
  lemma RequestFrameBytes(seqId: u32, request: RpcRequest)
    ensures var b, body := Encode(RequestMessage(seqId, request)), SerializeRequest(request);
            && |b| == 20 + |body| && b[..8] == [0x52, 0x50, 0x43, 0x01, 1, 1, 0, 0]
            && BigEndian(b[8..12]) == seqId && BigEndian(b[12..16]) == |body| % 0x1_0000_0000
            && b[16..20] == [0, 0, 0, 0] && b[20..] == body
  {
    var m := RequestMessage(seqId, request);
    HeaderBytes(m.header, m.body);
    hide SerializeRequest, BigEndian, SerializeHeader;
  }

  /** Those of a response frame: type RESPONSE for code zero and RPC_ERROR otherwise, the
      serializer and the number of the request. */
  lemma ResponseFrameBytes(to: RpcHeader, response: RpcResponse)
    ensures var b, body := Encode(ResponseMessage(to, response)), SerializeResponse(response);
            && |b| == 20 + |body|
            && b[..8] == [0x52, 0x50, 0x43, 0x01, 1, if response.errorCode == 0 then 2 else 3, to.serializer, 0]
            && BigEndian(b[8..12]) == to.seqId && BigEndian(b[12..16]) == |body| % 0x1_0000_0000
            && b[16..20] == [0, 0, 0, 0] && b[20..] == body
  {
    var m := ResponseMessage(to, response);
    HeaderBytes(m.header, m.body);
    hide SerializeResponse, BigEndian, SerializeHeader;
  }

  lemma HeaderBytes(h: RpcHeader, body: Bytes)
    ensures var b := Encode(Message(h, body));
            && |b| == 20 + |body| && b[20..] == body
            && (h.magic == 0x5250_4301 ==> b[..4] == [0x52, 0x50, 0x43, 0x01])
            && b[..8] == b[..4] + [h.version, h.msgType, h.serializer, h.flags]
            && BigEndian(b[8..12]) == h.seqId && BigEndian(b[12..16]) == h.bodySize
            && (h.checksum == 0 ==> b[16..20] == [0, 0, 0, 0])
  {
    HeaderLayout(h);
    hide BigEndian;
    var b, head := Encode(Message(h, body)), SerializeHeader(h);
    assert b[..4] == head[0..4] == EncodeU32(h.magic);
    assert b[8..12] == head[8..12] && b[12..16] == head[12..16];
    assert b[16..20] == head[16..20] == EncodeU32(h.checksum);
    assert b[..8] == b[..4] + [b[4], b[5], b[6], b[7]];
  }

  // ------------------------------------------------------------------- streams

  /** What a byte stream means: the frames that are complete, up to the first
      header whose magic word is wrong. */
  function Reassemble(s: Bytes): seq<Message>
    decreases |s|
  {
    if |s| < HEADER_SIZE then []
    else
      var h := DeserializeHeader(s[..HEADER_SIZE]).value;
      if h.magic != MAGIC || |s| < HEADER_SIZE + h.bodySize then []
      else
        [Message(h, s[HEADER_SIZE..HEADER_SIZE + h.bodySize])]
        + Reassemble(s[HEADER_SIZE + h.bodySize..])
  }

  // ------------------------------------------------- streams of valid frames

  lemma {:induction false} EncodeAllAppend(ms: seq<Message>, ns: seq<Message>)
    ensures EncodeAll(ms + ns) == EncodeAll(ms) + EncodeAll(ns)
  {
    hide Encode;
    if ms == [] {
      assert ms + ns == ns;
    } else {
      EncodeAllAppend(ms[1..], ns);
      assert (ms + ns)[0] == ms[0] && (ms + ns)[1..] == ms[1..] + ns;
      assert EncodeAll(ms) == Encode(ms[0]) + EncodeAll(ms[1..]);
      assert EncodeAll(ms + ns) == Encode(ms[0]) + EncodeAll(ms[1..] + ns);
      Associate(Encode(ms[0]), EncodeAll(ms[1..]), EncodeAll(ns));
    }
  }

  lemma Associate(a: Bytes, b: Bytes, c: Bytes)
    ensures a + (b + c) == (a + b) + c
  {
  }

  lemma EncodeAllSnoc(ms: seq<Message>, m: Message)
    ensures EncodeAll(ms + [m]) == EncodeAll(ms) + Encode(m)
  {
    hide Encode;
    EncodeAllAppend(ms, [m]);
    assert EncodeAll([m]) == Encode(m) + EncodeAll([]);
  }

  lemma EncodeAllPrefix(ms: seq<Message>, ns: seq<Message>)
    requires ms <= ns
    ensures EncodeAll(ms) <= EncodeAll(ns)
  {
    EncodeAllAppend(ms, ns[|ms|..]);
    assert ns == ms + ns[|ms|..];
  }

  lemma ReassembleOne(m: Message, tail: Bytes)
    requires WellFramed(m)
    ensures Reassemble(Encode(m) + tail) == [m] + Reassemble(tail)
  {
    hide SerializeHeader, DeserializeHeader;
    var s := Encode(m) + tail;
    assert s[..HEADER_SIZE] == SerializeHeader(m.header) + [];
    HeaderRoundTrip(m.header, []);
    assert s[HEADER_SIZE..HEADER_SIZE + |m.body|] == m.body;
    assert s[HEADER_SIZE + |m.body|..] == tail;
  }

  /** Reassembly undoes framing, whatever follows the frames. */
  lemma {:induction false} ReassembleEncoded(ms: seq<Message>, tail: Bytes)
    requires AllWellFramed(ms)
    ensures Reassemble(EncodeAll(ms) + tail) == ms + Reassemble(tail)
  {
    hide Encode, Reassemble;
    if ms == [] {
      assert EncodeAll(ms) + tail == tail;
    } else {
      ReassembleOne(ms[0], EncodeAll(ms[1..]) + tail);
      assert EncodeAll(ms) + tail == Encode(ms[0]) + (EncodeAll(ms[1..]) + tail);
      ReassembleEncoded(ms[1..], tail);
    }
  }

  /** Nothing is invented: a stream starts with the frames it reassembles to. */
  lemma {:induction false} ReassembleSound(s: Bytes)
    ensures AllWellFramed(Reassemble(s)) && EncodeAll(Reassemble(s)) <= s
    decreases |s|
  {
    hide SerializeHeader, DeserializeHeader;
    var ms := Reassemble(s);
    if ms != [] {
      var h := DeserializeHeader(s[..HEADER_SIZE]).value;
      var n := HEADER_SIZE + h.bodySize;
      HeaderExact(s[..HEADER_SIZE]);
      Glue(s, HEADER_SIZE, n);
      ReassembleSound(s[n..]);
      assert ms[1..] == Reassemble(s[n..]);
      assert s == s[..n] + s[n..];
    }
  }

  /** Later bytes never change what earlier bytes meant. */
  lemma ReassembleMonotone(s: Bytes, more: Bytes)
    ensures Reassemble(s) <= Reassemble(s + more)
  {
    hide Encode, EncodeAll, Reassemble;
    var ms := Reassemble(s);
    ReassembleSound(s);
    var rest := Remainder(EncodeAll(ms), s);
    assert s + more == EncodeAll(ms) + (rest + more);
    ReassembleEncoded(ms, rest + more);
  }

  /** Any prefix of a stream of valid frames reassembles to a prefix of them. */
  lemma ReassemblePrefix(s: Bytes, ms: seq<Message>)
    requires AllWellFramed(ms) && s <= EncodeAll(ms)
    ensures Reassemble(s) <= ms
  {
    hide Encode, EncodeAll;
    var rest := Remainder(s, EncodeAll(ms));
    ReassembleMonotone(s, rest);
    ReassembleEncoded(ms, []);
    assert EncodeAll(ms) + [] == EncodeAll(ms);
    assert ms + [] == ms;
  }

  /** A header with the wrong magic word ends the stream: the frames before it
      are delivered and nothing after it is. */
  lemma BadMagicEndsStream(ms: seq<Message>, bad: RpcHeader, rest: Bytes)
    requires AllWellFramed(ms) && bad.magic != MAGIC
    ensures Reassemble(EncodeAll(ms) + (SerializeHeader(bad) + rest)) == ms
  {
    hide SerializeHeader, DeserializeHeader;
    var tail := SerializeHeader(bad) + rest;
    ReassembleEncoded(ms, tail);
    assert tail[..HEADER_SIZE] == SerializeHeader(bad) + [];
    HeaderRoundTrip(bad, []);
    assert ms + [] == ms;
  }

  // ----------------------------------------------------------- the read loop

  /** Where the chain of `async_read`s stands. `Failed` is a read error; both it
      and `BadMagic` end the chain. */
  datatype Reader = AwaitHeader | AwaitBody(header: RpcHeader) | BadMagic(header: RpcHeader) | Failed

  datatype ReadState = ReadState(reader: Reader, consumed: Bytes, delivered: seq<Message>)

  const READ_START := ReadState(AwaitHeader, [], [])

  predicate Reading(st: ReadState) { st.reader.AwaitHeader? || st.reader.AwaitBody? }

  function Need(reader: Reader): nat
  {
    match reader
    case AwaitHeader => HEADER_SIZE
    case AwaitBody(h) => h.bodySize
    case _ => 0
  }

  /** The outstanding read can complete: its bytes are among those that arrived. */
  predicate CanRead(st: ReadState, arrived: Bytes)
  {
    Reading(st) && st.consumed <= arrived && |st.consumed| + Need(st.reader) <= |arrived|
  }

  function Chunk(st: ReadState, arrived: Bytes): (chunk: Bytes)
    requires CanRead(st, arrived)
    ensures |chunk| == Need(st.reader) && st.consumed + chunk <= arrived
  {
    arrived[|st.consumed|..|st.consumed| + Need(st.reader)]
  }

  /** One successful read completion. */
  function Read(st: ReadState, arrived: Bytes): ReadState
    requires CanRead(st, arrived)
  {
    var chunk := Chunk(st, arrived);
    match st.reader
    case AwaitHeader =>
      var h := DeserializeHeader(chunk).value;
      st.(consumed := st.consumed + chunk,
          reader := if h.magic == MAGIC then AwaitBody(h) else BadMagic(h))
    case AwaitBody(h) =>
      st.(consumed := st.consumed + chunk,
          reader := AwaitHeader,
          delivered := st.delivered + [Message(h, chunk)])
  }

  function ReadError(st: ReadState): ReadState { st.(reader := Failed) }

  /** The bytes consumed so far are the delivered frames and at most one header. */
  ghost predicate ReadInv(st: ReadState)
  {
    AllWellFramed(st.delivered) &&
    match st.reader
    case AwaitHeader => st.consumed == EncodeAll(st.delivered)
    case AwaitBody(h) => h.magic == MAGIC && st.consumed == EncodeAll(st.delivered) + SerializeHeader(h)
    case BadMagic(h) => h.magic != MAGIC && st.consumed == EncodeAll(st.delivered) + SerializeHeader(h)
    case Failed => EncodeAll(st.delivered) <= st.consumed
  }

  lemma ReadInvStep(st: ReadState, arrived: Bytes)
    requires ReadInv(st) && CanRead(st, arrived)
    ensures ReadInv(Read(st, arrived))
  {
    hide SerializeHeader, DeserializeHeader;
    var chunk := Chunk(st, arrived);
    match st.reader
    case AwaitHeader =>
      HeaderExact(chunk);
      assert chunk[..HEADER_SIZE] == chunk;
    case AwaitBody(h) =>
      EncodeAllSnoc(st.delivered, Message(h, chunk));
      assert EncodeAll(st.delivered) + SerializeHeader(h) + chunk
          == EncodeAll(st.delivered) + (SerializeHeader(h) + chunk);
  }

  /** What has been delivered is a prefix of what the arrived bytes mean. */
  lemma DeliveredPrefix(st: ReadState, arrived: Bytes)
    requires ReadInv(st) && st.consumed <= arrived
    ensures st.delivered <= Reassemble(arrived)
  {
    hide SerializeHeader, DeserializeHeader;
    var rest := Remainder(EncodeAll(st.delivered), arrived);
    ReassembleEncoded(st.delivered, rest);
  }

  /** A loop that waits for more bytes, or met a wrong magic word, has delivered
      everything the arrived bytes mean. */
  lemma DeliveredAll(st: ReadState, arrived: Bytes)
    requires ReadInv(st) && st.consumed <= arrived && !st.reader.Failed?
    requires !CanRead(st, arrived)
    ensures st.delivered == Reassemble(arrived)
  {
    hide SerializeHeader, DeserializeHeader;
    var rest := Remainder(EncodeAll(st.delivered), arrived);
    ReassembleEncoded(st.delivered, rest);
    assert Reassemble(rest) == [] by {
      if !st.reader.AwaitHeader? {
        assert rest[..HEADER_SIZE] == SerializeHeader(st.reader.header) + [];
        HeaderRoundTrip(st.reader.header, []);
      }
    }
    assert st.delivered + [] == st.delivered;
  }

  // ------------------------------------------------------------- whole runs

  /** What can happen to a reader: bytes arrive, a read completes, a read fails. */
  datatype ReadAction = Arrive(bytes: Bytes) | Complete | Fail

  datatype ReadRun = ReadRun(st: ReadState, arrived: Bytes)

  predicate ReadEnabled(r: ReadRun, a: ReadAction)
  {
    match a
    case Arrive(_) => true
    case Complete => CanRead(r.st, r.arrived)
    case Fail => Reading(r.st)
  }

  function ReadApply(r: ReadRun, a: ReadAction): ReadRun
    requires ReadEnabled(r, a)
  {
    match a
    case Arrive(bytes) => r.(arrived := r.arrived + bytes)
    case Complete => r.(st := Read(r.st, r.arrived))
    case Fail => r.(st := ReadError(r.st))
  }

  predicate ReadRunOk(r: ReadRun, acts: seq<ReadAction>)
    decreases |acts|
  {
    acts == [] || (ReadEnabled(r, acts[0]) && ReadRunOk(ReadApply(r, acts[0]), acts[1..]))
  }

  function ReadExec(r: ReadRun, acts: seq<ReadAction>): ReadRun
    requires ReadRunOk(r, acts)
    decreases |acts|
  {
    if acts == [] then r else ReadExec(ReadApply(r, acts[0]), acts[1..])
  }

  lemma {:induction false} ReadRunKeepsInv(r: ReadRun, acts: seq<ReadAction>)
    requires ReadInv(r.st) && r.st.consumed <= r.arrived && ReadRunOk(r, acts)
    ensures var e := ReadExec(r, acts); ReadInv(e.st) && e.st.consumed <= e.arrived
    decreases |acts|
  {
    if acts != [] {
      if acts[0].Complete? {
        ReadInvStep(r.st, r.arrived);
      }
      if acts[0].Fail? && r.st.reader.AwaitBody? {
        assert EncodeAll(r.st.delivered) <= r.st.consumed;
      }
      ReadRunKeepsInv(ReadApply(r, acts[0]), acts[1..]);
    }
  }

  /** However the bytes are split on arrival: the loop only ever delivers a prefix
      of what the peer framed, and once it is idle without a read error it has
      delivered exactly what the arrived bytes mean. */
  lemma StreamReassembly(acts: seq<ReadAction>, ms: seq<Message>)
    requires ReadRunOk(ReadRun(READ_START, []), acts)
    ensures var e := ReadExec(ReadRun(READ_START, []), acts);
            && e.st.delivered <= Reassemble(e.arrived)
            && (!e.st.reader.Failed? && !CanRead(e.st, e.arrived) ==> e.st.delivered == Reassemble(e.arrived))
            && (AllWellFramed(ms) && e.arrived <= EncodeAll(ms) ==> e.st.delivered <= ms)
  {
    var e := ReadExec(ReadRun(READ_START, []), acts);
    ReadRunKeepsInv(ReadRun(READ_START, []), acts);
    DeliveredPrefix(e.st, e.arrived);
    if !e.st.reader.Failed? && !CanRead(e.st, e.arrived) {
      DeliveredAll(e.st, e.arrived);
    }
    if AllWellFramed(ms) && e.arrived <= EncodeAll(ms) {
      ReassemblePrefix(e.arrived, ms);
    }
  }
}
