/** The server's `Connection` object. Each method is one critical section, one atomic
    operation or one completion handler of the source; `model` is the state of the
    protocol that all threads drive together. */
module Connection {
  import opened Common
  import opened Wire
  import opened Framing
  import P = ConnectionProtocol
  import Serializer

  class Connection {
    var connId: u64
    var closed: bool
    var writeQueue: seq<Bytes>
    var writing: bool
    const headerBuf: array<u8>
    var bodyBuf: Bytes
    ghost var model: P.State

    ghost predicate Valid()
      reads this
    {
      && closed == model.closed && writing == model.writing
      && headerBuf.Length == HEADER_SIZE
      && |writeQueue| == |model.queue|
      && (forall i :: 0 <= i < |model.queue| ==> model.queue[i] < |model.frames|)
      && (forall i :: 0 <= i < |writeQueue| ==> writeQueue[i] == model.frames[model.queue[i]])
      && P.Inv(model)
    }

    constructor ()
      ensures Valid() && model == P.Init() && fresh(headerBuf) && connId == 0
    {
      P.InitInv();
      connId, closed, writeQueue, writing, bodyBuf := 0, false, [], false, [];
      headerBuf := new u8[HEADER_SIZE](_ => 0);
      model := P.Init();
    }

    /** `set_conn_id`. */
    method SetConnId(id: u64)
      requires Valid()
      modifies this`connId
      ensures Valid() && connId == id
    {
      connId := id;
    }

    /** The call of `on_close_`, which the winner of `LoseConnection` owes. */
    ghost method FireOnClose()
      requires Valid() && P.Enabled(model, P.FireOnClose)
      modifies this`model
      ensures Valid() && model == P.Apply(old(model), P.FireOnClose)
    {
      P.Step(model, P.FireOnClose);
      hide P.Inv;
      model := P.Apply(model, P.FireOnClose);
    }

    /** `send` up to its lock: nothing happens on a closed connection. */
    method BeginSend(header: RpcHeader, body: Bytes) returns (data: Option<Bytes>, ghost send: nat)
      requires Valid()
      modifies this`model
      ensures Valid() && model == P.Apply(old(model), P.SendTest(Encode(Message(header, body))))
      ensures send == |old(model.frames)|
      ensures data == if closed then None else Some(Encode(Message(header, body)))
    {
      ghost var frame := Encode(Message(header, body));
      P.Step(model, P.SendTest(frame));
      hide P.Inv, Encode;
      send := |model.frames|;
      if closed {
        data := None;
      } else {
        var head := Serializer.SerializeHeaderBuf(header);
        data := Some(head[..] + body);
        FrameBytes(header, body);
      }
      model := P.Apply(model, P.SendTest(frame));
    }

    /** The critical section of `send`; the caller writes if it found no writer. */
    method PushFrame(data: Bytes, ghost send: nat) returns (startWrite: bool)
      requires Valid() && P.Enabled(model, P.SendPush(send)) && send < |model.frames| && model.frames[send] == data
      modifies this
      ensures Valid() && model == P.Apply(old(model), P.SendPush(send))
      ensures startWrite <==> !old(writing)
      ensures connId == old(connId) && closed == old(closed)
    {
      P.Step(model, P.SendPush(send));
      hide P.Inv;
      model := P.Apply(model, P.SendPush(send));
      writeQueue := writeQueue + [data];
      startWrite := !writing;
      writing := true;
    }

    /** The critical section of `do_write`: the oldest frame, or `writing_ = false`. */
    method TakeWrite() returns (data: Option<Bytes>)
      requires Valid() && P.Enabled(model, P.StartWrite)
      modifies this
      ensures Valid() && model == P.Apply(old(model), P.StartWrite)
      ensures old(model.queue) == [] ==> data == None && !writing
      ensures old(model.queue) != [] ==>
                old(model.queue)[0] < |model.frames| && data == Some(model.frames[old(model.queue)[0]])
      ensures connId == old(connId) && closed == old(closed)
    {
      P.Step(model, P.StartWrite);
      hide P.Inv;
      model := P.Apply(model, P.StartWrite);
      if |writeQueue| == 0 {
        writing := false;
        data := None;
      } else {
        data := Some(writeQueue[0]);
        writeQueue := writeQueue[1..];
      }
    }

    /** The compare-and-swap of a failing read or write; the winner calls `on_close_`. */
    method LoseConnection(ghost a: P.Action) returns (won: bool)
      requires Valid() && P.Enabled(model, a) && (a.ReadFailed? || a.WriteFailed?)
      modifies this
      ensures Valid() && model == P.Apply(old(model), a)
      ensures won <==> !old(closed)
      ensures closed && connId == old(connId)
      ensures won ==> model.callbacks == 1 && model.fired == model.socketCloses == 0
    {
      P.Step(model, a);
      model := P.Apply(model, a);
      won := !closed;
      closed := true;
    }

    /** `close()`: the winner of the compare-and-swap closes the socket if it is open, once;
        for everybody else nothing happens. */
    method Close(socketOpen: bool) returns (closesSocket: bool)
      requires Valid()
      modifies this`model, this`closed
      ensures Valid() && closed
      ensures closesSocket == (!old(closed) && socketOpen) && old(closed) == old(model.closed)
      ensures model == AfterClose(old(model), socketOpen)
      ensures model.socketCloses == old(model.socketCloses) + (if closesSocket then 1 else 0)
      ensures model.foundShut == old(model.foundShut) + (if !old(closed) && !socketOpen then 1 else 0)
      ensures model.fired == old(model.fired) && model.closers == old(model.closers)
    {
      closesSocket := !closed && socketOpen;
      if !closed {
        P.Step(model, P.Close);
        P.Step(P.Apply(model, P.Close), P.CloseSocket(socketOpen));
        model := P.Apply(P.Apply(model, P.Close), P.CloseSocket(socketOpen));
        closed := true;
      }
    }

    /** The header read: 20 bytes of the stream into the fixed buffer. */
    method FillHeader(stream: Bytes, pos: nat)
      requires headerBuf.Length == HEADER_SIZE && pos + HEADER_SIZE <= |stream|
      modifies headerBuf
      ensures headerBuf[..] == stream[pos..pos + HEADER_SIZE]
    {
      for i := 0 to HEADER_SIZE
        invariant headerBuf[..i] == stream[pos..pos + i]
      {
        headerBuf[i] := stream[pos + i];
      }
    }

    /** The read loop over everything the peer will ever send, with its reused
        buffers: it hands up exactly the messages that the bytes mean, in order. */
    method ReadLoop(stream: Bytes) returns (delivered: seq<Message>, pos: nat)
      requires headerBuf.Length == HEADER_SIZE
      modifies this`bodyBuf, headerBuf
      ensures delivered == Reassemble(stream)
      ensures pos <= |stream| && EncodeAll(delivered) <= stream[..pos]
    {
      hide DeserializeHeader, Reassemble, EncodeAll, ReadInv;
      ghost var st := READ_START;
      StartInv();
      delivered, pos := [], 0;
      while true
        invariant ReadInv(st) && st.reader.AwaitHeader? && st.delivered == delivered
        invariant pos <= |stream| && st.consumed == stream[..pos]
        decreases |stream| - pos
      {
        if |stream| - pos < HEADER_SIZE {
          break;
        }
        FillHeader(stream, pos);
        var header := DeserializeHeader(headerBuf[..]).value;
        ReadInvStep(st, stream);
        st := Read(st, stream);
        Glue(stream, pos, pos + HEADER_SIZE);
        pos := pos + HEADER_SIZE;
        if header.magic != MAGIC || |stream| - pos < header.bodySize {
          break;
        }
        bodyBuf := stream[pos..pos + header.bodySize];
        ReadInvStep(st, stream);
        st := Read(st, stream);
        Glue(stream, pos, pos + header.bodySize);
        pos := pos + header.bodySize;
        delivered := delivered + [Message(header, bodyBuf)];
      }
      DeliveredAll(st, stream);
      DeliveredBytes(st);
    }
  }

  lemma StartInv()
    ensures ReadInv(READ_START)
  {
  }

  /** What `close()` does: nothing if somebody else closed first. */
  function AfterClose(m: P.State, socketOpen: bool): P.State
  {
    if m.closed then m else P.Apply(P.Apply(m, P.Close), P.CloseSocket(socketOpen))
  }

  lemma DeliveredBytes(st: ReadState)
    requires ReadInv(st)
    ensures EncodeAll(st.delivered) <= st.consumed
  {
  }

  lemma FrameBytes(header: RpcHeader, body: Bytes)
    ensures SerializeHeader(header) + body == Encode(Message(header, body))
  {
  }
}
