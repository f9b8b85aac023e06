/** The serializers as the source writes them: a buffer of the final size is
    allocated and filled in place through a moving position. Each one is proved to
    leave exactly the bytes that the wire format prescribes. */
module Serializer {
  import opened Wire
  import opened Framing

  /** `write_u16(&data[pos], v)`. */
  method WriteU16(buf: array<u8>, pos: nat, v: u16)
    requires pos + 2 <= buf.Length
    modifies buf
    ensures buf[..] == old(buf[..pos]) + EncodeU16(v) + old(buf[pos + 2..])
  {
    buf[pos] := v / 0x100;
    buf[pos + 1] := v % 0x100;
  }

  /** `write_u32(&data[pos], v)`. */
  method WriteU32(buf: array<u8>, pos: nat, v: u32)
    requires pos + 4 <= buf.Length
    modifies buf
    ensures buf[..] == old(buf[..pos]) + EncodeU32(v) + old(buf[pos + 4..])
  {
    buf[pos] := v / 0x100_0000;
    buf[pos + 1] := v / 0x1_0000 % 0x100;
    buf[pos + 2] := v / 0x100 % 0x100;
    buf[pos + 3] := v % 0x100;
  }

  /** `memcpy(&data[pos], s.data(), s.size())`. */
  method Copy(buf: array<u8>, pos: nat, s: Bytes)
    requires pos + |s| <= buf.Length
    modifies buf
    ensures buf[..] == old(buf[..pos]) + s + old(buf[pos + |s|..])
  {
    for i := 0 to |s|
      invariant buf[..] == old(buf[..pos]) + s[..i] + old(buf[pos + i..])
    {
      buf[pos + i] := s[i];
    }
  }

  method SerializeHeaderBuf(h: RpcHeader) returns (data: array<u8>)
    ensures fresh(data) && data[..] == SerializeHeader(h)
  {
    hide EncodeU32;
    data := new u8[HEADER_SIZE](_ => 0);
    WriteU32(data, 0, h.magic);
    data[4] := h.version;
    data[5] := h.msgType;
    data[6] := h.serializer;
    data[7] := h.flags;
    assert data[..8] == EncodeU32(h.magic) + [h.version, h.msgType, h.serializer, h.flags];
    WriteU32(data, 8, h.seqId);
    WriteU32(data, 12, h.bodySize);
    WriteU32(data, 16, h.checksum);
  }

  method SerializeRequestBuf(r: RpcRequest) returns (data: array<u8>)
    ensures fresh(data) && data[..] == SerializeRequest(r)
  {
    hide EncodeU16, EncodeU32;
    var total := 2 + |r.service| + 2 + |r.meth| + 4 + 4 + |r.params|;
    data := new u8[total](_ => 0);
    var pos := 0;
    ghost var done: Bytes := [];

    pos, done := PutU16(data, pos, |r.service| % U16_SPAN, done);
    pos, done := PutBytes(data, pos, r.service, done);
    pos, done := PutU16(data, pos, |r.meth| % U16_SPAN, done);
    pos, done := PutBytes(data, pos, r.meth, done);
    pos, done := PutU32(data, pos, r.timeoutMs, done);
    pos, done := PutU32(data, pos, |r.params| % U32_SPAN, done);
    pos, done := PutBytes(data, pos, r.params, done);
    assert [] + EncodeU16(|r.service| % U16_SPAN) == EncodeU16(|r.service| % U16_SPAN);
  }

  method SerializeResponseBuf(r: RpcResponse) returns (data: array<u8>)
    ensures fresh(data) && data[..] == SerializeResponse(r)
  {
    hide EncodeU16, EncodeU32, ToUnsigned;
    var total := 4 + 2 + |r.errorMsg| + 4 + |r.result|;
    data := new u8[total](_ => 0);
    var pos := 0;
    ghost var done: Bytes := [];
    pos, done := PutU32(data, pos, ToUnsigned(r.errorCode), done);
    pos, done := PutU16(data, pos, |r.errorMsg| % U16_SPAN, done);
    pos, done := PutBytes(data, pos, r.errorMsg, done);
    pos, done := PutU32(data, pos, |r.result| % U32_SPAN, done);
    pos, done := PutBytes(data, pos, r.result, done);
    assert [] + EncodeU32(ToUnsigned(r.errorCode)) == EncodeU32(ToUnsigned(r.errorCode));
  }

  /** Write one field and move on: `done` is what the buffer holds up to `pos`. */
  method PutU16(buf: array<u8>, pos: nat, v: u16, ghost done: Bytes) returns (pos': nat, ghost done': Bytes)
    requires pos == |done| && pos + 2 <= buf.Length && buf[..pos] == done
    modifies buf
    ensures pos' == pos + 2 == |done'| && done' == done + EncodeU16(v) && buf[..pos'] == done'
  {
    WriteU16(buf, pos, v);
    pos', done' := pos + 2, done + EncodeU16(v);
  }

  method PutU32(buf: array<u8>, pos: nat, v: u32, ghost done: Bytes) returns (pos': nat, ghost done': Bytes)
    requires pos == |done| && pos + 4 <= buf.Length && buf[..pos] == done
    modifies buf
    ensures pos' == pos + 4 == |done'| && done' == done + EncodeU32(v) && buf[..pos'] == done'
  {
    WriteU32(buf, pos, v);
    pos', done' := pos + 4, done + EncodeU32(v);
  }

  method PutBytes(buf: array<u8>, pos: nat, s: Bytes, ghost done: Bytes) returns (pos': nat, ghost done': Bytes)
    requires pos == |done| && pos + |s| <= buf.Length && buf[..pos] == done
    modifies buf
    ensures pos' == pos + |s| == |done'| && done' == done + s && buf[..pos'] == done'
  {
    Copy(buf, pos, s);
    pos', done' := pos + |s|, done + s;
  }

  /** The frame that `call` puts into its write item. */
  method BuildRequestFrame(seqId: u32, request: RpcRequest) returns (frame: Bytes)
    ensures frame == Encode(RequestMessage(seqId, request))
  {
    var body := SerializeRequestBuf(request);
    var header := RpcHeader(MAGIC, VERSION, MSG_REQUEST, SER_PROTOBUF, FLAG_NONE, seqId, body.Length % U32_SPAN, 0);
    var head := SerializeHeaderBuf(header);
    frame := head[..] + body[..];
  }

  /** The data that `send` queues for the response to `to`. */
  method BuildResponseFrame(to: RpcHeader, response: RpcResponse) returns (frame: Bytes)
    ensures frame == Encode(ResponseMessage(to, response))
  {
    var body := SerializeResponseBuf(response);
    var header := RpcHeader(MAGIC, VERSION, if response.errorCode == 0 then MSG_RESPONSE else MSG_RPC_ERROR,
                            to.serializer, FLAG_NONE, to.seqId, body.Length % U32_SPAN, 0);
    var head := SerializeHeaderBuf(header);
    frame := head[..] + body[..];
  }
}
