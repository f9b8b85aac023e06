/** The wire format: big-endian integers, the 20-byte frame header, and the
    length-prefixed request and response bodies.

    A `std::string` is a sequence of bytes. `size_t` and the sizes it holds are
    unbounded here; every narrowing cast of a size is written out as `%`. */
module Wire {

  type u8 = x: int | 0 <= x < 0x100
  type u16 = x: int | 0 <= x < 0x1_0000
  type u32 = x: int | 0 <= x < 0x1_0000_0000
  type i32 = x: int | -0x8000_0000 <= x < 0x8000_0000
  type Bytes = seq<u8>

  const U16_SPAN: int := 0x1_0000
  const U32_SPAN: int := 0x1_0000_0000

  /** A parse result: `Err` carries the text of the thrown `runtime_error`. */
  datatype Result<+T> = Ok(value: T) | Err(error: Bytes)

  /** The bytes of a string literal. */
  function Ascii(s: string): (b: Bytes)
    ensures |b| == |s|
    ensures forall i :: 0 <= i < |s| ==> b[i] == s[i] as int % 0x100
  {
    seq(|s|, i requires 0 <= i < |s| => s[i] as int % 0x100)
  }

  // ---------------------------------------------------------------- integers

  function EncodeU16(v: u16): (b: Bytes)
    ensures |b| == 2
  {
    [v / 0x100, v % 0x100]
  }

  function DecodeU16(b: Bytes): u16
    requires |b| == 2
  {
    b[0] as int * 0x100 + b[1]
  }

  function EncodeU32(v: u32): (b: Bytes)
    ensures |b| == 4
  {
    [v / 0x100_0000, v / 0x1_0000 % 0x100, v / 0x100 % 0x100, v % 0x100]
  }

  function DecodeU32(b: Bytes): u32
    requires |b| == 4
  {
    b[0] as int * 0x100_0000 + b[1] as int * 0x1_0000 + b[2] as int * 0x100 + b[3]
  }

  lemma U16RoundTrip(v: u16)
    ensures DecodeU16(EncodeU16(v)) == v
  {
  }

  lemma U16Exact(b: Bytes)
    requires |b| == 2
    ensures EncodeU16(DecodeU16(b)) == b
  {
  }

  lemma Divide256(v: nat)
    ensures v / 0x1_0000 == v / 0x100 / 0x100
  {
  }

  lemma U32RoundTrip(v: u32)
    ensures DecodeU32(EncodeU32(v)) == v
  {
    Divide256(v);
    Divide256(v / 0x100);
    assert v / 0x100_0000 == v / 0x1_0000 / 0x100;
    calc {
      DecodeU32(EncodeU32(v));
      v / 0x100_0000 * 0x100_0000 + v / 0x1_0000 % 0x100 * 0x1_0000 + v / 0x100 % 0x100 * 0x100 + v % 0x100;
      v / 0x1_0000 * 0x1_0000 + v / 0x100 % 0x100 * 0x100 + v % 0x100;
      v / 0x100 * 0x100 + v % 0x100;
      v;
    }
  }

  lemma Digit(high: nat, low: u8)
    ensures (high * 0x100 + low) / 0x100 == high && (high * 0x100 + low) % 0x100 == low
  {
  }

  lemma U32Exact(b: Bytes)
    requires |b| == 4
    ensures EncodeU32(DecodeU32(b)) == b
  {
    var v := DecodeU32(b);
    var v1, v2 := (b[0] as int * 0x100 + b[1]) * 0x100 + b[2], b[0] as int * 0x100 + b[1];
    Digit(v1, b[3]);
    Digit(v2, b[2]);
    Digit(b[0], b[1]);
    assert v == v1 * 0x100 + b[3] && v1 == v2 * 0x100 + b[2];
    Divide256(v);
    Divide256(v / 0x100);
    assert v / 0x100_0000 == v / 0x1_0000 / 0x100;
  }

  /** What big-endian means: each further byte shifts the number up by eight bits. */
  function BigEndian(b: Bytes): nat
  {
    if b == [] then 0 else BigEndian(b[..|b| - 1]) * 0x100 + b[|b| - 1]
  }

  lemma DecodesBigEndian(b: Bytes)
    ensures |b| == 2 ==> DecodeU16(b) == BigEndian(b)
    ensures |b| == 4 ==> DecodeU32(b) == BigEndian(b)
  {
    if |b| == 2 {
      assert b[..1][..0] == [] && BigEndian(b[..1]) == b[0];
    }
    if |b| == 4 {
      assert b[..3][..2] == b[..2] && b[..2][..1] == b[..1] && b[..1][..0] == [];
      assert BigEndian(b[..1]) == b[0];
      assert BigEndian(b[..2]) == b[0] as int * 0x100 + b[1];
      assert BigEndian(b[..3]) == BigEndian(b[..2]) * 0x100 + b[2];
    }
  }

  /** `static_cast<uint32_t>` of a signed code, and back. */
  function ToUnsigned(code: i32): u32 { code % U32_SPAN }

  function ToSigned(v: u32): i32 { if v < 0x8000_0000 then v else v - U32_SPAN }

  lemma SignedRoundTrip(code: i32)
    ensures ToSigned(ToUnsigned(code)) == code
  {
  }

  // --------------------------------------------------------------- sequences

  /** Two neighbouring slices of `data`. */
  lemma Glue(data: Bytes, i: nat, j: nat)
    requires i <= j <= |data|
    ensures data[..i] + data[i..j] == data[..j]
  {
  }

  /** What follows a prefix. */
  function Remainder(prefix: Bytes, whole: Bytes): (rest: Bytes)
    requires prefix <= whole
    ensures whole == prefix + rest
  {
    whole[|prefix|..]
  }

  // ------------------------------------------------------------ frame header

  const MAGIC: u32 := 0x5250_4301
  const VERSION: u8 := 1
  const HEADER_SIZE: nat := 20

  const MSG_REQUEST: u8 := 1
  const MSG_RESPONSE: u8 := 2
  const MSG_RPC_ERROR: u8 := 3

  const SER_PROTOBUF: u8 := 0
  const FLAG_NONE: u8 := 0

  datatype RpcHeader = RpcHeader(
    magic: u32,
    version: u8,
    msgType: u8,
    serializer: u8,
    flags: u8,
    seqId: u32,
    bodySize: u32,
    checksum: u32)

  function SerializeHeader(h: RpcHeader): (b: Bytes)
    ensures |b| == HEADER_SIZE
  {
    EncodeU32(h.magic) + [h.version, h.msgType, h.serializer, h.flags]
    + EncodeU32(h.seqId) + EncodeU32(h.bodySize) + EncodeU32(h.checksum)
  }

  function DeserializeHeader(data: Bytes): (r: Result<RpcHeader>)
    ensures r.Ok? <==> |data| >= HEADER_SIZE
  {
    if |data| < HEADER_SIZE then
      Err(Ascii("protocol: header too short"))
    else
      Ok(RpcHeader(
           DecodeU32(data[0..4]), data[4], data[5], data[6], data[7],
           DecodeU32(data[8..12]), DecodeU32(data[12..16]), DecodeU32(data[16..20])))
  }

  /** The header codec is the identity on headers, whatever follows them. */
  lemma HeaderRoundTrip(h: RpcHeader, rest: Bytes)
    ensures DeserializeHeader(SerializeHeader(h) + rest) == Ok(h)
  {
    var data := SerializeHeader(h) + rest;
    assert data[0..4] == EncodeU32(h.magic);
    assert data[8..12] == EncodeU32(h.seqId);
    assert data[12..16] == EncodeU32(h.bodySize);
    assert data[16..20] == EncodeU32(h.checksum);
    U32RoundTrip(h.magic);
    U32RoundTrip(h.seqId);
    U32RoundTrip(h.bodySize);
    U32RoundTrip(h.checksum);
  }

  /** Where each field lies in the 20 bytes, and in which byte order. */
  lemma HeaderLayout(h: RpcHeader)
    ensures var b := SerializeHeader(h);
            && BigEndian(b[0..4]) == h.magic
            && b[4] == h.version && b[5] == h.msgType && b[6] == h.serializer && b[7] == h.flags
            && BigEndian(b[8..12]) == h.seqId && BigEndian(b[12..16]) == h.bodySize
            && BigEndian(b[16..20]) == h.checksum
  {
    hide EncodeU32, DecodeU32, BigEndian;
    var b := SerializeHeader(h);
    assert b[0..4] == EncodeU32(h.magic) && b[8..12] == EncodeU32(h.seqId);
    assert b[12..16] == EncodeU32(h.bodySize) && b[16..20] == EncodeU32(h.checksum);
    BigEndianU32(h.magic);
    BigEndianU32(h.seqId);
    BigEndianU32(h.bodySize);
    BigEndianU32(h.checksum);
  }

  lemma BigEndianU32(v: u32)
    ensures BigEndian(EncodeU32(v)) == v
  {
    hide EncodeU32, DecodeU32, BigEndian;
    DecodesBigEndian(EncodeU32(v));
    U32RoundTrip(v);
  }

  /** Every 20 bytes are the encoding of exactly the header they decode to. */
  lemma HeaderExact(data: Bytes)
    requires |data| >= HEADER_SIZE
    ensures SerializeHeader(DeserializeHeader(data).value) == data[..HEADER_SIZE]
  {
    U32Exact(data[0..4]);
    U32Exact(data[8..12]);
    U32Exact(data[12..16]);
    U32Exact(data[16..20]);
  }

  // ------------------------------------------------------------ request body

  datatype RpcRequest = RpcRequest(service: Bytes, meth: Bytes, timeoutMs: u32, params: Bytes)

  function SerializeRequest(r: RpcRequest): (b: Bytes)
    ensures |b| == 12 + |r.service| + |r.meth| + |r.params|
  {
    EncodeU16(|r.service| % U16_SPAN) + r.service
    + EncodeU16(|r.meth| % U16_SPAN) + r.meth
    + EncodeU32(r.timeoutMs)
    + EncodeU32(|r.params| % U32_SPAN) + r.params
  }

  /** The scan of the source, check by check, with its moving `pos`. */
  function DeserializeRequest(data: Bytes): Result<RpcRequest>
  {
    if |data| < 4 then Err(Ascii("protocol: invalid request")) else
    var srvLen := DecodeU16(data[0..2]);
    var p1 := 2 + srvLen;
    if p1 > |data| then Err(Ascii("protocol: request truncated (service_name)")) else
    if p1 + 2 > |data| then Err(Ascii("protocol: request truncated (method_name)")) else
    var methodLen := DecodeU16(data[p1..p1 + 2]);
    var p2 := p1 + 2 + methodLen;
    if p2 > |data| then Err(Ascii("protocol: request truncated (method_name)")) else
    if p2 + 4 > |data| then Err(Ascii("protocol: request truncated (timeout)")) else
    var timeout := DecodeU32(data[p2..p2 + 4]);
    var p3 := p2 + 4;
    if p3 + 4 > |data| then Err(Ascii("protocol: request truncated (params_len)")) else
    var paramsLen := DecodeU32(data[p3..p3 + 4]);
    var p4 := p3 + 4;
    if p4 + paramsLen > |data| then Err(Ascii("protocol: request truncated (params)")) else
    Ok(RpcRequest(data[2..p1], data[p1 + 2..p2], timeout, data[p4..p4 + paramsLen]))
  }

  /** The sizes the length fields can hold. */
  predicate RequestFits(r: RpcRequest)
  {
    |r.service| < U16_SPAN && |r.meth| < U16_SPAN && |r.params| < U32_SPAN
  }

  /** What the scan does to bytes laid out field by field. */
  lemma RequestParse(l1: Bytes, service: Bytes, l2: Bytes, meth: Bytes, t: Bytes, l3: Bytes, params: Bytes, rest: Bytes)
    requires |l1| == |l2| == 2 && |t| == |l3| == 4
    requires DecodeU16(l1) == |service| && DecodeU16(l2) == |meth| && DecodeU32(l3) == |params|
    ensures DeserializeRequest(l1 + service + l2 + meth + t + l3 + params + rest)
         == Ok(RpcRequest(service, meth, DecodeU32(t), params))
  {
    var data := l1 + service + l2 + meth + t + l3 + params + rest;
    var p1 := 2 + |service|;
    var p2 := p1 + 2 + |meth|;
    assert data[0..2] == l1;
    assert data[2..p1] == service;
    assert data[p1..p1 + 2] == l2;
    assert data[p1 + 2..p2] == meth;
    assert data[p2..p2 + 4] == t;
    assert data[p2 + 4..p2 + 8] == l3;
    assert data[p2 + 8..p2 + 8 + |params|] == params;
  }

  lemma RequestDecodes(r: RpcRequest, rest: Bytes)
    requires RequestFits(r)
    ensures DeserializeRequest(SerializeRequest(r) + rest) == Ok(r)
  {
    hide EncodeU16, EncodeU32, DecodeU16, DecodeU32, DeserializeRequest;
    U16RoundTrip(|r.service|);
    U16RoundTrip(|r.meth|);
    U32RoundTrip(r.timeoutMs);
    U32RoundTrip(|r.params|);
    RequestParse(EncodeU16(|r.service|), r.service, EncodeU16(|r.meth|), r.meth,
                 EncodeU32(r.timeoutMs), EncodeU32(|r.params|), r.params, rest);
  }

  /** Where the scan finds the fields of an accepted input. */
  lemma RequestFields(data: Bytes, r: RpcRequest)
    requires DeserializeRequest(data) == Ok(r)
    ensures var p1, p2 := 2 + |r.service|, 4 + |r.service| + |r.meth|;
            && p2 + 8 + |r.params| <= |data| && RequestFits(r)
            && DecodeU16(data[0..2]) == |r.service| && data[2..p1] == r.service
            && DecodeU16(data[p1..p1 + 2]) == |r.meth| && data[p1 + 2..p2] == r.meth
            && DecodeU32(data[p2..p2 + 4]) == r.timeoutMs && DecodeU32(data[p2 + 4..p2 + 8]) == |r.params|
            && data[p2 + 8..p2 + 8 + |r.params|] == r.params
  {
    hide DecodeU16, DecodeU32, Ascii;
  }

  /** The fields an accepted input is cut into. */
  lemma RequestLayout(data: Bytes, r: RpcRequest)
    returns (l1: Bytes, l2: Bytes, t: Bytes, l3: Bytes)
    requires DeserializeRequest(data) == Ok(r)
    ensures RequestFits(r)
    ensures |l1| == |l2| == 2 && |t| == |l3| == 4
    ensures DecodeU16(l1) == |r.service| && DecodeU16(l2) == |r.meth|
    ensures DecodeU32(t) == r.timeoutMs && DecodeU32(l3) == |r.params|
    ensures l1 + r.service + l2 + r.meth + t + l3 + r.params <= data
  {
    hide DeserializeRequest, DecodeU16, DecodeU32;
    RequestFields(data, r);
    var p1 := 2 + |r.service|;
    var p2 := p1 + 2 + |r.meth|;
    l1, l2 := data[0..2], data[p1..p1 + 2];
    t, l3 := data[p2..p2 + 4], data[p2 + 4..p2 + 8];
    Glue(data, 2, p1);
    Glue(data, p1, p1 + 2);
    Glue(data, p1 + 2, p2);
    Glue(data, p2, p2 + 4);
    Glue(data, p2 + 4, p2 + 8);
    Glue(data, p2 + 8, p2 + 8 + |r.params|);
  }

  /** Whatever the decoder accepts starts with the encoding of its answer. */
  lemma RequestExact(data: Bytes)
    requires DeserializeRequest(data).Ok?
    ensures var r := DeserializeRequest(data).value;
            RequestFits(r) && SerializeRequest(r) <= data
  {
    hide EncodeU16, EncodeU32, DecodeU16, DecodeU32, DeserializeRequest;
    var r := DeserializeRequest(data).value;
    var l1, l2, t, l3 := RequestLayout(data, r);
    U16Exact(l1);
    U16Exact(l2);
    U32Exact(t);
    U32Exact(l3);
  }

  /** The round trip holds on exactly the requests whose sizes fit their fields;
      any bytes may follow. */
  lemma RequestRoundTrip(r: RpcRequest, rest: Bytes)
    ensures DeserializeRequest(SerializeRequest(r) + rest) == Ok(r) <==> RequestFits(r)
  {
    if RequestFits(r) {
      RequestDecodes(r, rest);
    } else if DeserializeRequest(SerializeRequest(r) + rest).Ok? {
      RequestExact(SerializeRequest(r) + rest);
    }
  }

  /** No strict prefix of an encoding is accepted. */
  lemma RequestPrefixRejected(r: RpcRequest, n: nat)
    requires RequestFits(r) && n < |SerializeRequest(r)|
    ensures DeserializeRequest(SerializeRequest(r)[..n]).Err?
  {
    var whole := SerializeRequest(r);
    if DeserializeRequest(whole[..n]).Ok? {
      RequestExact(whole[..n]);
      var q := DeserializeRequest(whole[..n]).value;
      var rest := Remainder(SerializeRequest(q), whole);
      RequestDecodes(r, []);
      assert whole + [] == whole;
      RequestDecodes(q, rest);
    }
  }

  lemma BigEndianU16(v: u16)
    ensures BigEndian(EncodeU16(v)) == v
  {
    hide EncodeU16, DecodeU16, BigEndian;
    DecodesBigEndian(EncodeU16(v));
    U16RoundTrip(v);
  }

  /** Where each field of a request lies, and in which byte order; lengths are cut to
      the width of their fields. */
  lemma RequestBytes(r: RpcRequest)
    ensures var b := SerializeRequest(r);
            var p1 := 2 + |r.service|;
            var p2 := p1 + 2 + |r.meth|;
            && BigEndian(b[0..2]) == |r.service| % 0x1_0000 && b[2..p1] == r.service
            && BigEndian(b[p1..p1 + 2]) == |r.meth| % 0x1_0000 && b[p1 + 2..p2] == r.meth
            && BigEndian(b[p2..p2 + 4]) == r.timeoutMs
            && BigEndian(b[p2 + 4..p2 + 8]) == |r.params| % 0x1_0000_0000 && b[p2 + 8..] == r.params
  {
    hide EncodeU16, EncodeU32, BigEndian;
    var b := SerializeRequest(r);
    var p1 := 2 + |r.service|;
    var p2 := p1 + 2 + |r.meth|;
    BigEndianU16(|r.service| % U16_SPAN);
    BigEndianU16(|r.meth| % U16_SPAN);
    BigEndianU32(r.timeoutMs);
    BigEndianU32(|r.params| % U32_SPAN);
    assert b[0..2] == EncodeU16(|r.service| % U16_SPAN);
    assert b[p1..p1 + 2] == EncodeU16(|r.meth| % U16_SPAN);
    assert b[p2..p2 + 4] == EncodeU32(r.timeoutMs);
    assert b[p2 + 4..p2 + 8] == EncodeU32(|r.params| % U32_SPAN);
  }

  /** What is reported of a request that was cut short: the first field that is missing. */
  lemma RequestCutText(r: RpcRequest, n: nat)
    requires RequestFits(r) && n < |SerializeRequest(r)|
    ensures var p1 := 2 + |r.service|;
            var p2 := p1 + 2 + |r.meth|;
            DeserializeRequest(SerializeRequest(r)[..n])
            == Err(Ascii(if n < 4 then "protocol: invalid request"
                         else if n < p1 then "protocol: request truncated (service_name)"
                         else if n < p2 then "protocol: request truncated (method_name)"
                         else if n < p2 + 4 then "protocol: request truncated (timeout)"
                         else if n < p2 + 8 then "protocol: request truncated (params_len)"
                         else "protocol: request truncated (params)"))
  {
    hide EncodeU16, EncodeU32, DecodeU16, DecodeU32, Ascii;
    var whole := SerializeRequest(r);
    var data := whole[..n];
    RequestDecodes(r, []);
    assert whole + [] == whole;
    RequestFields(whole, r);
    CutSlices(r, n);
  }

  /** The fields that a cut request still has are those of the whole. */
  lemma CutSlices(r: RpcRequest, n: nat)
    requires n < |SerializeRequest(r)|
    ensures var whole, data := SerializeRequest(r), SerializeRequest(r)[..n];
            var p1 := 2 + |r.service|;
            var p2 := p1 + 2 + |r.meth|;
            && (n >= 2 ==> data[0..2] == whole[0..2])
            && (n >= p1 + 2 ==> data[p1..p1 + 2] == whole[p1..p1 + 2])
            && (n >= p2 + 4 ==> data[p2..p2 + 4] == whole[p2..p2 + 4])
            && (n >= p2 + 8 ==> data[p2 + 4..p2 + 8] == whole[p2 + 4..p2 + 8])
  {
  }

  // ----------------------------------------------------------- response body

  datatype RpcResponse = RpcResponse(errorCode: i32, errorMsg: Bytes, result: Bytes)

  function SerializeResponse(r: RpcResponse): (b: Bytes)
    ensures |b| == 10 + |r.errorMsg| + |r.result|
  {
    EncodeU32(ToUnsigned(r.errorCode))
    + EncodeU16(|r.errorMsg| % U16_SPAN) + r.errorMsg
    + EncodeU32(|r.result| % U32_SPAN) + r.result
  }

  function DeserializeResponse(data: Bytes): Result<RpcResponse>
  {
    if |data| < 6 then Err(Ascii("protocol: invalid response")) else
    var code := ToSigned(DecodeU32(data[0..4]));
    var msgLen := DecodeU16(data[4..6]);
    var p1 := 6 + msgLen;
    if p1 > |data| then Err(Ascii("protocol: response truncated (error_msg)")) else
    if p1 + 4 > |data| then Err(Ascii("protocol: response truncated (result_len)")) else
    var resultLen := DecodeU32(data[p1..p1 + 4]);
    var p2 := p1 + 4;
    if p2 + resultLen > |data| then Err(Ascii("protocol: response truncated (result)")) else
    Ok(RpcResponse(code, data[6..p1], data[p2..p2 + resultLen]))
  }

  predicate ResponseFits(r: RpcResponse)
  {
    |r.errorMsg| < U16_SPAN && |r.result| < U32_SPAN
  }

  lemma ResponseParse(c: Bytes, l1: Bytes, msg: Bytes, l2: Bytes, result: Bytes, rest: Bytes)
    requires |l1| == 2 && |c| == |l2| == 4
    requires DecodeU16(l1) == |msg| && DecodeU32(l2) == |result|
    ensures DeserializeResponse(c + l1 + msg + l2 + result + rest)
         == Ok(RpcResponse(ToSigned(DecodeU32(c)), msg, result))
  {
    var data := c + l1 + msg + l2 + result + rest;
    var p1 := 6 + |msg|;
    assert data[0..4] == c;
    assert data[4..6] == l1;
    assert data[6..p1] == msg;
    assert data[p1..p1 + 4] == l2;
    assert data[p1 + 4..p1 + 4 + |result|] == result;
  }

  lemma ResponseDecodes(r: RpcResponse, rest: Bytes)
    requires ResponseFits(r)
    ensures DeserializeResponse(SerializeResponse(r) + rest) == Ok(r)
  {
    hide EncodeU16, EncodeU32, DecodeU16, DecodeU32, ToSigned, ToUnsigned, DeserializeResponse;
    SignedRoundTrip(r.errorCode);
    U32RoundTrip(ToUnsigned(r.errorCode));
    U16RoundTrip(|r.errorMsg|);
    U32RoundTrip(|r.result|);
    ResponseParse(EncodeU32(ToUnsigned(r.errorCode)), EncodeU16(|r.errorMsg|), r.errorMsg,
                  EncodeU32(|r.result|), r.result, rest);
  }

  lemma ResponseLayout(data: Bytes, r: RpcResponse) returns (c: Bytes, l1: Bytes, l2: Bytes)
    requires DeserializeResponse(data) == Ok(r)
    ensures ResponseFits(r)
    ensures |l1| == 2 && |c| == |l2| == 4
    ensures DecodeU32(c) == ToUnsigned(r.errorCode)
    ensures DecodeU16(l1) == |r.errorMsg| && DecodeU32(l2) == |r.result|
    ensures c + l1 + r.errorMsg + l2 + r.result <= data
  {
    hide DecodeU16, DecodeU32, Ascii;
    var p1 := 6 + |r.errorMsg|;
    c, l1, l2 := data[0..4], data[4..6], data[p1..p1 + 4];
    Glue(data, 4, 6);
    Glue(data, 6, p1);
    Glue(data, p1, p1 + 4);
    Glue(data, p1 + 4, p1 + 4 + |r.result|);
  }

  lemma ResponseExact(data: Bytes)
    requires DeserializeResponse(data).Ok?
    ensures var r := DeserializeResponse(data).value;
            ResponseFits(r) && SerializeResponse(r) <= data
  {
    hide EncodeU16, EncodeU32, DecodeU16, DecodeU32, ToSigned, ToUnsigned, DeserializeResponse;
    var r := DeserializeResponse(data).value;
    var c, l1, l2 := ResponseLayout(data, r);
    U32Exact(c);
    U16Exact(l1);
    U32Exact(l2);
  }

  /** As for requests; the signed error code survives for every value. */
  lemma ResponseRoundTrip(r: RpcResponse, rest: Bytes)
    ensures DeserializeResponse(SerializeResponse(r) + rest) == Ok(r) <==> ResponseFits(r)
  {
    if ResponseFits(r) {
      ResponseDecodes(r, rest);
    } else if DeserializeResponse(SerializeResponse(r) + rest).Ok? {
      ResponseExact(SerializeResponse(r) + rest);
    }
  }

  lemma ResponsePrefixRejected(r: RpcResponse, n: nat)
    requires ResponseFits(r) && n < |SerializeResponse(r)|
    ensures DeserializeResponse(SerializeResponse(r)[..n]).Err?
  {
    var whole := SerializeResponse(r);
    if DeserializeResponse(whole[..n]).Ok? {
      ResponseExact(whole[..n]);
      var q := DeserializeResponse(whole[..n]).value;
      var rest := Remainder(SerializeResponse(q), whole);
      ResponseDecodes(r, []);
      assert whole + [] == whole;
      ResponseDecodes(q, rest);
    }
  }

  /** Where each field of a response lies, and in which byte order; a negative code is
      written in two's complement. */
  lemma ResponseBytes(r: RpcResponse)
    ensures var b := SerializeResponse(r);
            var p := 6 + |r.errorMsg|;
            && BigEndian(b[0..4]) == (if r.errorCode >= 0 then r.errorCode else r.errorCode + 0x1_0000_0000)
            && BigEndian(b[4..6]) == |r.errorMsg| % 0x1_0000 && b[6..p] == r.errorMsg
            && BigEndian(b[p..p + 4]) == |r.result| % 0x1_0000_0000 && b[p + 4..] == r.result
  {
    hide EncodeU16, EncodeU32, BigEndian;
    var b := SerializeResponse(r);
    var p := 6 + |r.errorMsg|;
    BigEndianU32(ToUnsigned(r.errorCode));
    BigEndianU16(|r.errorMsg| % U16_SPAN);
    BigEndianU32(|r.result| % U32_SPAN);
    assert b[0..4] == EncodeU32(ToUnsigned(r.errorCode));
    assert b[4..6] == EncodeU16(|r.errorMsg| % U16_SPAN);
    assert b[p..p + 4] == EncodeU32(|r.result| % U32_SPAN);
  }

  /** And what the decoder reads there. */
  lemma ResponseRead(data: Bytes, r: RpcResponse)
    requires DeserializeResponse(data) == Ok(r)
    ensures |data| >= 10 + |r.errorMsg| + |r.result|
    ensures var v, p := BigEndian(data[0..4]), 6 + |r.errorMsg|;
            && r.errorCode == (if v < 0x8000_0000 then v else v - 0x1_0000_0000)
            && BigEndian(data[4..6]) == |r.errorMsg| && data[6..p] == r.errorMsg
            && BigEndian(data[p..p + 4]) == |r.result| && data[p + 4..p + 4 + |r.result|] == r.result
  {
    hide DecodeU16, DecodeU32, BigEndian, Ascii;
    var p := 6 + |r.errorMsg|;
    DecodesBigEndian(data[0..4]);
    DecodesBigEndian(data[4..6]);
    DecodesBigEndian(data[p..p + 4]);
  }

  /** What is reported of a response that was cut short. */
  lemma ResponseCutText(r: RpcResponse, n: nat)
    requires ResponseFits(r) && n < |SerializeResponse(r)|
    ensures var p := 6 + |r.errorMsg|;
            DeserializeResponse(SerializeResponse(r)[..n])
            == Err(Ascii(if n < 6 then "protocol: invalid response"
                         else if n < p then "protocol: response truncated (error_msg)"
                         else if n < p + 4 then "protocol: response truncated (result_len)"
                         else "protocol: response truncated (result)"))
  {
    hide EncodeU16, EncodeU32, DecodeU16, DecodeU32, Ascii, ToSigned;
    var whole := SerializeResponse(r);
    var data, p := whole[..n], 6 + |r.errorMsg|;
    ResponseDecodes(r, []);
    assert whole + [] == whole;
    assert DecodeU16(whole[4..6]) == |r.errorMsg|;
    assert DecodeU32(whole[p..p + 4]) == |r.result|;
    assert n >= 6 ==> data[4..6] == whole[4..6];
    assert n >= p + 4 ==> data[p..p + 4] == whole[p..p + 4];
  }

  /** Fewer than 20 bytes are no header. */
  lemma ShortHeader(data: Bytes)
    requires |data| < 20
    ensures DeserializeHeader(data) == Err(Ascii("protocol: header too short"))
  {
  }
}
