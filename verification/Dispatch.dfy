/** Server-side request processing: find the service and the method, call the
    handler, and turn every outcome into a response. */
module Dispatch {
  import opened Common
  import opened Wire
  import opened Framing

  const SERVICE_NOT_FOUND: i32 := -1
  const METHOD_NOT_FOUND: i32 := -2
  const DESERIALIZE_ERROR: i32 := -5
  const INTERNAL_ERROR: i32 := -99

  /** How a handler ends: with a result, with a `runtime_error`, or with some other
      exception, which nothing on this path catches. */
  datatype Outcome = Returns(result: Bytes) | Throws(what: Bytes) | ThrowsOther

  datatype Service = Service(methods: seq<Bytes>, handle: (Bytes, Bytes) -> Outcome)

  type Services = map<Bytes, Service>

  function ServiceMissing(): Bytes { Ascii("service not found") }
  function MethodMissing(): Bytes { Ascii("method not found") }

  function MissingServiceText(service: Bytes): Bytes { Ascii("service not found: ") + service }

  function MissingMethodText(service: Bytes, meth: Bytes): Bytes
  {
    Ascii("method not found: ") + service + Ascii(".") + meth
  }

  function DispatchCall(services: Services, service: Bytes, meth: Bytes, params: Bytes): Outcome
  {
    if service !in services then Throws(MissingServiceText(service))
    else if meth !in services[service].methods then Throws(MissingMethodText(service, meth))
    else services[service].handle(meth, params)
  }

  predicate OccursAt(text: Bytes, pattern: Bytes, i: int)
  {
    0 <= i <= |text| - |pattern| && text[i..i + |pattern|] == pattern
  }

  /** `find(pattern) != npos`. */
  predicate Contains(text: Bytes, pattern: Bytes)
  {
    exists i :: 0 <= i <= |text| && OccursAt(text, pattern, i)
  }

  /** The text up to its first zero byte: all that is left of a message after
      `std::string err = e.what()`. */
  function CText(t: Bytes): Bytes
  {
    if t == [] || t[0] == 0 then [] else [t[0]] + CText(t[1..])
  }

  /** The error code is chosen by searching the text of the exception. */
  function Classify(what: Bytes): i32
  {
    if Contains(what, ServiceMissing()) then SERVICE_NOT_FOUND
    else if Contains(what, MethodMissing()) then METHOD_NOT_FOUND
    else INTERNAL_ERROR
  }

  /** The response to a decoded request, if the exception is one that is caught. */
  datatype Reply = Respond(response: RpcResponse) | Escapes

  function ReplyTo(outcome: Outcome): Reply
  {
    match outcome
    case Returns(result) => Respond(RpcResponse(0, [], result))
    case Throws(what) => Respond(RpcResponse(Classify(CText(what)), CText(what), []))
    case ThrowsOther => Escapes
  }

  function ProcessRequest(services: Services, header: RpcHeader, body: Bytes): Reply
  {
    if header.msgType != MSG_REQUEST then
      Respond(RpcResponse(INTERNAL_ERROR, Ascii("unexpected message type"), []))
    else
      match DeserializeRequest(body)
      case Err(what) => Respond(RpcResponse(DESERIALIZE_ERROR, Ascii("deserialize failed: ") + what, []))
      case Ok(r) => ReplyTo(DispatchCall(services, r.service, r.meth, r.params))
  }

  // ------------------------------------------------------- substring searching

  lemma ContainsLeft(a: Bytes, b: Bytes, p: Bytes)
    requires Contains(a, p)
    ensures Contains(a + b, p)
  {
    var i :| 0 <= i <= |a| && OccursAt(a, p, i);
    assert (a + b)[i..i + |p|] == a[i..i + |p|];
    assert OccursAt(a + b, p, i);
  }

  lemma ContainsRight(a: Bytes, b: Bytes, p: Bytes)
    requires Contains(b, p)
    ensures Contains(a + b, p)
  {
    var i :| 0 <= i <= |b| && OccursAt(b, p, i);
    assert (a + b)[|a| + i..|a| + i + |p|] == b[i..i + |p|];
    assert OccursAt(a + b, p, |a| + i);
  }

  /** A pattern whose first byte does not occur in `a` is found in `a + b` only in `b`. */
  lemma SearchSkips(a: Bytes, b: Bytes, p: Bytes)
    requires p != [] && p[0] !in a
    ensures Contains(a + b, p) <==> Contains(b, p)
  {
    if Contains(b, p) {
      ContainsRight(a, b, p);
    }
    if Contains(a + b, p) {
      var i :| 0 <= i <= |a + b| && OccursAt(a + b, p, i);
      assert (a + b)[i] == (a + b)[i..i + |p|][0] == p[0];
      assert i >= |a|;
      assert b[i - |a|..i - |a| + |p|] == (a + b)[i..i + |p|];
      assert OccursAt(b, p, i - |a|);
    }
  }

  lemma NotAcross(a: Bytes, sep: u8, b: Bytes, p: Bytes, i: nat)
    requires sep !in p && OccursAt(a + [sep] + b, p, i)
    ensures i + |p| <= |a| || i > |a|
  {
    var t := a + [sep] + b;
    assert t[|a|] == sep;
    assert forall j :: i <= j < i + |p| ==> t[j] == p[j - i] && t[j] != sep;
  }

  lemma OnTheLeft(a: Bytes, rest: Bytes, p: Bytes, i: nat)
    requires OccursAt(a + rest, p, i) && i + |p| <= |a|
    ensures Contains(a, p)
  {
    assert a[i..i + |p|] == (a + rest)[i..i + |p|];
    assert OccursAt(a, p, i);
  }

  lemma OnTheRight(front: Bytes, b: Bytes, p: Bytes, i: nat)
    requires OccursAt(front + b, p, i) && i >= |front|
    ensures Contains(b, p)
  {
    assert b[i - |front|..i - |front| + |p|] == (front + b)[i..i + |p|];
    assert OccursAt(b, p, i - |front|);
  }

  /** A pattern without the separator is found on one side of it. */
  lemma SearchSplits(a: Bytes, sep: u8, b: Bytes, p: Bytes)
    requires sep !in p
    ensures Contains(a + [sep] + b, p) <==> Contains(a, p) || Contains(b, p)
  {
    var t := a + [sep] + b;
    assert t == a + ([sep] + b);
    hide OccursAt;
    if Contains(a, p) {
      ContainsLeft(a, [sep] + b, p);
    }
    if Contains(b, p) {
      ContainsRight(a + [sep], b, p);
    }
    if Contains(t, p) {
      var i: nat :| 0 <= i <= |t| && OccursAt(t, p, i);
      NotAcross(a, sep, b, p, i);
      if i + |p| <= |a| {
        OnTheLeft(a, [sep] + b, p, i);
      } else {
        OnTheRight(a + [sep], b, p, i);
      }
    }
  }

  // ------------------------------------------------------------ zero bytes

  /** `CText` is the longest prefix without a zero byte. */
  lemma {:induction false} CTextPrefix(t: Bytes)
    ensures CText(t) <= t && 0 !in CText(t)
    ensures 0 in t ==> |CText(t)| < |t| && t[|CText(t)|] == 0
    ensures 0 !in t ==> CText(t) == t
  {
    if t != [] && t[0] != 0 {
      CTextPrefix(t[1..]);
      assert t == [t[0]] + t[1..];
    }
  }

  lemma CTextNext(t: Bytes)
    requires t != [] && t[0] != 0
    ensures CText(t) == [t[0]] + CText(t[1..])
  {
  }

  lemma CTextStops(t: Bytes)
    requires t == [] || t[0] == 0
    ensures CText(t) == []
  {
  }

  lemma {:induction false} CTextAppend(a: Bytes, b: Bytes)
    ensures CText(a + b) == if 0 in a then CText(a) else a + CText(b)
  {
    hide CText;
    if a == [] {
      assert a + b == b;
    } else if a[0] == 0 {
      CTextStops(a + b);
      CTextStops(a);
    } else {
      var t := a[1..];
      assert a == [a[0]] + t && (a + b)[1..] == t + b;
      CTextNext(a + b);
      CTextNext(a);
      CTextAppend(t, b);
      if 0 !in t {
        assert [a[0]] + (t + CText(b)) == a + CText(b);
      }
    }
  }

  lemma PhraseBytes()
    ensures |ServiceMissing()| == 17 && Ascii(".")[0] !in ServiceMissing() && Ascii(".")[0] != 0
    ensures ServiceMissing()[0] !in Ascii("method not found: ")
  {
  }

  lemma PhrasesHaveNoZero()
    ensures 0 !in Ascii("method not found: ") && 0 !in Ascii("service not found: ") && 0 !in Ascii(".")
  {
  }

  /** What the two messages become on the way into the response. */
  lemma CutTexts(service: Bytes, meth: Bytes)
    ensures CText(MissingServiceText(service)) == Ascii("service not found: ") + CText(service)
    ensures CText(MissingMethodText(service, meth))
         == Ascii("method not found: ")
            + (if 0 in service then CText(service) else service + Ascii(".") + CText(meth))
  {
    hide CText;
    PhrasesHaveNoZero();
    CTextAppend(Ascii("service not found: "), service);
    var prefix := Ascii("method not found: ");
    assert MissingMethodText(service, meth) == prefix + (service + (Ascii(".") + meth));
    CTextAppend(prefix, service + (Ascii(".") + meth));
    CTextAppend(service, Ascii(".") + meth);
    CTextAppend(Ascii("."), meth);
    assert service + (Ascii(".") + CText(meth)) == service + Ascii(".") + CText(meth);
  }

  // ------------------------------------------------------------- error codes

  /** An unknown service is always reported as such, by its name up to a zero byte. */
  lemma MissingServiceCode(services: Services, service: Bytes, meth: Bytes, params: Bytes)
    requires service !in services
    ensures ReplyTo(DispatchCall(services, service, meth, params))
         == Respond(RpcResponse(SERVICE_NOT_FOUND, Ascii("service not found: ") + CText(service), []))
  {
    hide CText;
    CutTexts(service, meth);
    var t := CText(MissingServiceText(service));
    assert t[0..17] == ServiceMissing();
    assert OccursAt(t, ServiceMissing(), 0);
  }

  /** The part of the two names that is left in the message contains the phrase. */
  predicate NamesMislead(service: Bytes, meth: Bytes)
  {
    Contains(CText(service), ServiceMissing()) || (0 !in service && Contains(CText(meth), ServiceMissing()))
  }

  /** An unknown method of a known service is reported as such exactly when the names,
      up to their first zero byte, do not contain the phrase "service not found";
      otherwise it is reported as an unknown service. */
  lemma MissingMethodCode(services: Services, service: Bytes, meth: Bytes, params: Bytes)
    requires service in services && meth !in services[service].methods
    ensures ReplyTo(DispatchCall(services, service, meth, params))
         == Respond(RpcResponse(if NamesMislead(service, meth) then SERVICE_NOT_FOUND else METHOD_NOT_FOUND,
                                CText(MissingMethodText(service, meth)), []))
  {
    hide CText, Contains;
    CutTexts(service, meth);
    CTextPrefix(service);
    PhraseBytes();
    var t := CText(MissingMethodText(service, meth));
    var p := ServiceMissing();
    var dot := Ascii(".")[0];
    assert Ascii(".") == [dot];
    var rest := if 0 in service then CText(service) else service + [dot] + CText(meth);
    assert t == Ascii("method not found: ") + rest;
    SearchSkips(Ascii("method not found: "), rest, p);
    SearchSplits(service, dot, CText(meth), p);
    assert t[0..16] == MethodMissing();
    FoundAtStart(t, MethodMissing());
  }

  lemma FoundAtStart(t: Bytes, p: Bytes)
    requires p <= t
    ensures Contains(t, p)
  {
    assert t[0..|p|] == p;
    assert OccursAt(t, p, 0);
  }

  lemma PhraseHasNoZero()
    ensures 0 !in Ascii("service not found")
  {
  }

  /** So the code can be wrong: here the service is registered. */
  lemma MisreportedService(params: Bytes)
    ensures var name := Ascii("service not found");
            var services: Services := map[name := Service([], (m, p) => Returns([]))];
            ReplyTo(DispatchCall(services, name, [], params)).response.errorCode == SERVICE_NOT_FOUND
  {
    PhraseHasNoZero();
    hide CText, Ascii, Contains;
    var name := Ascii("service not found");
    CTextPrefix(name);
    FoundAtStart(name, ServiceMissing());
    MissingMethodCode(map[name := Service([], (m, p) => Returns([]))], name, [], params);
  }

  // -------------------------------------------------------- what is answered

  /** What the answer to request `q` has to be, said without the functions above. */
  ghost predicate RightReply(services: Services, q: RpcRequest, reply: Reply)
  {
    if q.service !in services then
      reply == Respond(RpcResponse(-1, Ascii("service not found: ") + CText(q.service), []))
    else if q.meth !in services[q.service].methods then
      reply == Respond(RpcResponse(if NamesMislead(q.service, q.meth) then -1 else -2,
                                   CText(Ascii("method not found: ") + q.service + Ascii(".") + q.meth), []))
    else
      match services[q.service].handle(q.meth, q.params)
      case Returns(r) => reply == Respond(RpcResponse(0, [], r))
      case Throws(w) => RightError(w, reply)
      case ThrowsOther => reply == Escapes
  }

  ghost predicate RightError(w: Bytes, reply: Reply)
  {
    && reply.Respond? && reply.response.errorMsg == CText(w) && reply.response.result == []
    && reply.response.errorCode == (if Contains(CText(w), Ascii("service not found")) then -1
                                    else if Contains(CText(w), Ascii("method not found")) then -2
                                    else -99)
  }

  lemma DispatchRight(services: Services, q: RpcRequest)
    ensures RightReply(services, q, ReplyTo(DispatchCall(services, q.service, q.meth, q.params)))
  {
    hide CText, Contains, NamesMislead;
    if q.service !in services {
      MissingServiceCode(services, q.service, q.meth, q.params);
    } else if q.meth !in services[q.service].methods {
      MissingMethodCode(services, q.service, q.meth, q.params);
    }
  }

  /** A request whose sizes fit is answered as it should be, in all cases: the handler's
      result with code zero, its error with the code its text calls for, an unknown service
      or method with theirs, and nothing when the handler threw something else. */
  lemma ProcessAnswers(services: Services, seqId: u32, q: RpcRequest)
    requires RequestFits(q)
    ensures RightReply(services, q,
                       ProcessRequest(services, RequestMessage(seqId, q).header, SerializeRequest(q)))
  {
    hide DeserializeRequest, RightReply, ReplyTo, DispatchCall;
    RequestDecodes(q, []);
    assert SerializeRequest(q) + [] == SerializeRequest(q);
    DispatchRight(services, q);
  }

  /** For a service and a method that are registered, spelled out. */
  lemma HandlerAnswers(services: Services, seqId: u32, q: RpcRequest)
    requires RequestFits(q) && q.service in services && q.meth in services[q.service].methods
    ensures var reply := ProcessRequest(services, RequestMessage(seqId, q).header, SerializeRequest(q));
            match services[q.service].handle(q.meth, q.params)
            case Returns(r) => reply == Respond(RpcResponse(0, [], r))
            case Throws(w) =>
              reply == Respond(RpcResponse(if Contains(CText(w), Ascii("service not found")) then -1
                                           else if Contains(CText(w), Ascii("method not found")) then -2
                                           else -99, CText(w), []))
            case ThrowsOther => reply == Escapes
  {
    hide CText, Contains, NamesMislead, ProcessRequest;
    ProcessAnswers(services, seqId, q);
  }

  /** Anything else is refused: a frame of another type with code -99, and a body that
      does not start with an encoded request with code -5 and the decoder's own text. */
  lemma ProcessRefuses(services: Services, header: RpcHeader, body: Bytes)
    ensures header.msgType != 1 ==>
              ProcessRequest(services, header, body)
              == Respond(RpcResponse(-99, Ascii("unexpected message type"), []))
    ensures header.msgType == 1 && (forall q :: RequestFits(q) ==> !(SerializeRequest(q) <= body)) ==>
              && DeserializeRequest(body).Err?
              && ProcessRequest(services, header, body)
                 == Respond(RpcResponse(-5, Ascii("deserialize failed: ") + DeserializeRequest(body).error, []))
  {
    hide DeserializeRequest, SerializeRequest, RequestFits;
    if DeserializeRequest(body).Ok? {
      RequestExact(body);
      var q := DeserializeRequest(body).value;
      assert RequestFits(q) && SerializeRequest(q) <= body;
    }
  }

  // --------------------------------------------- responses survive their codec

  /** What a caller of `dispatch` gets back fits the length fields of a response. */
  predicate OutcomeFits(outcome: Outcome)
  {
    match outcome
    case Returns(result) => |result| < U32_SPAN
    case Throws(what) => |CText(what)| < U16_SPAN
    case ThrowsOther => true
  }

  /** It fits at least a frame. */
  predicate OutcomeFrames(outcome: Outcome)
  {
    match outcome
    case Returns(result) => |result| + 10 < U32_SPAN
    case Throws(what) => |CText(what)| + 10 < U32_SPAN
    case ThrowsOther => true
  }

  /** What a server may ask of its handlers. */
  ghost predicate HandlersFit(services: Services)
  {
    forall name, meth, params :: name in services ==> OutcomeFits(services[name].handle(meth, params))
  }

  ghost predicate HandlersFrame(services: Services)
  {
    forall name, meth, params :: name in services ==> OutcomeFrames(services[name].handle(meth, params))
  }

  /** The names leave room for the longest message built from them. */
  predicate NamesFit(service: Bytes, meth: Bytes)
  {
    && 19 + |CText(service)| < U16_SPAN
    && (0 !in service ==> 19 + |service| + |CText(meth)| < U16_SPAN)
  }

  /** In particular when both names and 19 bytes fit together. */
  lemma ShortNamesFit(service: Bytes, meth: Bytes)
    requires |service| + |meth| + 19 < U16_SPAN
    ensures NamesFit(service, meth)
  {
    CTextPrefix(service);
    CTextPrefix(meth);
  }

  predicate Survives(r: RpcResponse) { DeserializeResponse(SerializeResponse(r)) == Ok(r) }

  lemma SurvivesExactly(r: RpcResponse)
    ensures Survives(r) <==> ResponseFits(r)
  {
    hide DeserializeResponse;
    ResponseRoundTrip(r, []);
    assert SerializeResponse(r) + [] == SerializeResponse(r);
  }

  /** That bound is exact: with longer names one of the two messages does not survive
      its own 16-bit length field. */
  lemma NamesFitExactly(code: i32, service: Bytes, meth: Bytes)
    ensures NamesFit(service, meth) <==>
              && Survives(RpcResponse(code, CText(MissingServiceText(service)), []))
              && Survives(RpcResponse(code, CText(MissingMethodText(service, meth)), []))
  {
    hide Survives, CText;
    CutTexts(service, meth);
    SurvivesExactly(RpcResponse(code, CText(MissingServiceText(service)), []));
    SurvivesExactly(RpcResponse(code, CText(MissingMethodText(service, meth)), []));
  }

  lemma ErrorTextBound(body: Bytes)
    requires DeserializeRequest(body).Err?
    ensures |DeserializeRequest(body).error| < 100
  {
  }

  /** The outcome of dispatching, for a body that reaches it. */
  function OutcomeOf(services: Services, header: RpcHeader, body: Bytes): Option<Outcome>
  {
    if header.msgType == MSG_REQUEST && DeserializeRequest(body).Ok? then
      var q := DeserializeRequest(body).value;
      Some(DispatchCall(services, q.service, q.meth, q.params))
    else None
  }

  /** Whatever branch `process_request` takes, the client can decode exactly the
      response it computed if and only if the outcome of dispatching fits. */
  lemma ReplySurvivesExactly(services: Services, header: RpcHeader, body: Bytes)
    requires ProcessRequest(services, header, body).Respond?
    ensures var outcome := OutcomeOf(services, header, body);
            Survives(ProcessRequest(services, header, body).response) == (outcome.None? || OutcomeFits(outcome.value))
  {
    hide Survives, Contains, CText, DispatchCall;
    if header.msgType == MSG_REQUEST && DeserializeRequest(body).Err? {
      ErrorTextBound(body);
    }
    hide DeserializeRequest;
    SurvivesExactly(ProcessRequest(services, header, body).response);
  }

  /** The outcome fits when the names do and the handlers do. */
  lemma DispatchFits(services: Services, service: Bytes, meth: Bytes, params: Bytes)
    requires HandlersFit(services) && NamesFit(service, meth)
    ensures OutcomeFits(DispatchCall(services, service, meth, params))
  {
    hide CText;
    CutTexts(service, meth);
    if service in services {
      assert OutcomeFits(services[service].handle(meth, params));
    }
  }

  /** Decoded names are short enough for a frame, whatever they are. */
  lemma DispatchFrames(services: Services, q: RpcRequest)
    requires HandlersFrame(services) && RequestFits(q)
    ensures OutcomeFrames(DispatchCall(services, q.service, q.meth, q.params))
  {
    hide CText;
    CutTexts(q.service, q.meth);
    CTextPrefix(q.service);
    CTextPrefix(q.meth);
    if q.service in services {
      assert OutcomeFrames(services[q.service].handle(q.meth, q.params));
    }
  }

  /** Every response fits a frame: no handler, name or body can break the framing. */
  lemma ReplyFrames(services: Services, header: RpcHeader, body: Bytes)
    requires HandlersFrame(services) && ProcessRequest(services, header, body).Respond?
    ensures |SerializeResponse(ProcessRequest(services, header, body).response)| < U32_SPAN
  {
    hide Contains, CText, DispatchCall, HandlersFrame;
    if header.msgType == MSG_REQUEST {
      if DeserializeRequest(body).Err? {
        ErrorTextBound(body);
      } else {
        hide DeserializeRequest;
        RequestExact(body);
        DispatchFrames(services, DeserializeRequest(body).value);
      }
    }
  }

  /** Whatever branch `process_request` takes, the client decodes exactly the response
      it computed, and the frame is of type RESPONSE exactly when the code is zero. */
  lemma ResponseSurvives(services: Services, header: RpcHeader, body: Bytes)
    requires HandlersFit(services) && HandlersFrame(services)
    requires DeserializeRequest(body).Ok? ==>
               NamesFit(DeserializeRequest(body).value.service, DeserializeRequest(body).value.meth)
    requires ProcessRequest(services, header, body).Respond?
    ensures var r := ProcessRequest(services, header, body).response;
            var m := ResponseMessage(header, r);
            && WellFramed(m)
            && m.header.seqId == header.seqId
            && DeserializeResponse(m.body) == Ok(r)
            && (m.header.msgType == MSG_RESPONSE <==> r.errorCode == 0)
            && Reassemble(Encode(m)) == [m]
  {
    hide DeserializeRequest, DeserializeResponse, HandlersFit, HandlersFrame, ProcessRequest;
    hide NamesFit, Reassemble, Encode, DispatchCall, OutcomeFits;
    var r := ProcessRequest(services, header, body).response;
    if header.msgType == MSG_REQUEST && DeserializeRequest(body).Ok? {
      var q := DeserializeRequest(body).value;
      DispatchFits(services, q.service, q.meth, q.params);
    }
    ReplySurvivesExactly(services, header, body);
    ReplyFrames(services, header, body);
    var m := ResponseMessage(header, r);
    ReassembleOne(m, []);
    assert Encode(m) + [] == Encode(m);
    ReassembleNothing();
  }

  lemma ReassembleNothing()
    ensures Reassemble([]) == []
  {
  }
}
