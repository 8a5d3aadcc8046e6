/** The calls the generated client makes (src/lib.rs:123-173), and how they
    meet the dispatch loop of a server on the same bus.

    A call encodes the request, sends it to the method's subject under the
    client's trimmed prefix with a fresh inbox as reply-to subject, and
    decodes what comes back on the inbox: one reply for a request /
    response method, a stream of replies, with undecodable ones silently
    dropped, for a server-streaming one. The bus round trip is a parameter:
    the reply the request got, or the payloads the inbox received. */
module Client {
  import opened Options
  import opened Subjects
  import opened Bindings
  import opened Dispatcher

  /** The errors a call returns, with the context the generated code
      attaches to them. Streaming calls propagate subscribe and publish
      errors without context. */
  datatype ClientError =
    | RequestFailed(functionName: string)
    | StreamSetupFailed
    | ReplyDecodeFailed(outputType: string)

  /** The message a call of binding `b` puts on the bus. */
  function RequestFor(prefix: string, b: Binding, payload: Bytes, inbox: string): (m: Message)
    ensures m.subject == ClientSubject(prefix, b.subject)
    ensures m.payload == payload && m.reply == Some(inbox)
  {
    Message(ClientSubject(prefix, b.subject), payload, Some(inbox))
  }

  /** A request / response call: the reply the request got (`None` when
      `request` itself failed, for instance when nobody answered) decoded
      as the output type. */
  function UnaryCall<Resp>(b: Binding, reply: Option<Bytes>,
                           decode: (string, Bytes) -> Option<Resp>): (r: Result<Resp, ClientError>)
    ensures reply.None? ==> r == Err(RequestFailed(b.functionName))
    ensures reply.Some? && decode(b.outputType, reply.value).None? ==> r == Err(ReplyDecodeFailed(b.outputType))
    ensures r.Ok? <==> reply.Some? && decode(b.outputType, reply.value).Some?
    ensures r.Ok? ==> decode(b.outputType, reply.value) == Some(r.value)
  {
    match reply
    case None => Err(RequestFailed(b.functionName))
    case Some(payload) =>
      match decode(b.outputType, payload)
      case None => Err(ReplyDecodeFailed(b.outputType))
      case Some(resp) => Ok(resp)
  }

  /** The `filter_map` over the inbox: every payload that decodes as the
      output type, in arrival order; the others are dropped. */
  function StreamItems<Resp>(outputType: string, payloads: seq<Bytes>,
                             decode: (string, Bytes) -> Option<Resp>): (r: seq<Resp>)
    ensures |r| <= |payloads|
  {
    if payloads == [] then []
    else
      (match decode(outputType, payloads[0]) case None => [] case Some(x) => [x])
      + StreamItems(outputType, payloads[1..], decode)
  }

  /** A server-streaming call: an error if subscribing to the inbox or
      publishing the request failed, the decoded stream otherwise. */
  function StreamCall<Resp>(b: Binding, setupOk: bool, payloads: seq<Bytes>,
                            decode: (string, Bytes) -> Option<Resp>): (r: Result<seq<Resp>, ClientError>)
    ensures !setupOk <==> r == Err(StreamSetupFailed)
    ensures setupOk ==> r == Ok(StreamItems(b.outputType, payloads, decode))
  {
    if setupOk then Ok(StreamItems(b.outputType, payloads, decode)) else Err(StreamSetupFailed)
  }

  /** The payloads published to `inbox`, in order: what a subscriber to the
      inbox receives. */
  function Delivered(inbox: string, events: seq<Event>): (r: seq<Bytes>)
    ensures |r| <= |events|
  {
    if events == [] then []
    else
      (if events[0].Published? && events[0].subject == inbox then [events[0].payload] else [])
      + Delivered(inbox, events[1..])
  }

  /** The codec contract: what `encode` produces, `decode` reads back as
      the same value of type `typeName`. */
  ghost predicate RoundTrips<Resp(!new)>(encode: Resp -> Bytes, decode: (string, Bytes) -> Option<Resp>, typeName: string)
  {
    forall x :: decode(typeName, encode(x)) == Some(x)
  }

  // ---------------------------------------------------------------------
  // The stream decoder
  // ---------------------------------------------------------------------

  /** When every payload decodes, the stream holds each decoded value in
      arrival order. */
  lemma {:induction false} StreamItemsAllDecode<Resp>(outputType: string, payloads: seq<Bytes>,
                                                     decode: (string, Bytes) -> Option<Resp>)
    requires forall k :: 0 <= k < |payloads| ==> decode(outputType, payloads[k]).Some?
    ensures StreamItems(outputType, payloads, decode)
         == seq(|payloads|, k requires 0 <= k < |payloads| => decode(outputType, payloads[k]).value)
  {
    if payloads != [] {
      StreamItemsAllDecode(outputType, payloads[1..], decode);
    }
  }

  /** Decoding a stream piecewise: the items of two runs of payloads are the
      items of the first followed by the items of the second. */
  lemma {:induction false} StreamItemsAppend<Resp>(outputType: string, a: seq<Bytes>, b: seq<Bytes>,
                                                  decode: (string, Bytes) -> Option<Resp>)
    ensures StreamItems(outputType, a + b, decode)
         == StreamItems(outputType, a, decode) + StreamItems(outputType, b, decode)
  {
    if a == [] {
      assert a + b == b;
    } else {
      var head := match decode(outputType, a[0]) case None => [] case Some(x) => [x];
      assert (a + b)[0] == a[0] && (a + b)[1..] == a[1..] + b;
      StreamItemsAppend(outputType, a[1..], b, decode);
      calc {
        StreamItems(outputType, a + b, decode);
        head + StreamItems(outputType, a[1..] + b, decode);
        head + (StreamItems(outputType, a[1..], decode) + StreamItems(outputType, b, decode));
        (head + StreamItems(outputType, a[1..], decode)) + StreamItems(outputType, b, decode);
        StreamItems(outputType, a, decode) + StreamItems(outputType, b, decode);
      }
    }
  }

  /** An undecodable payload vanishes from the stream without a trace,
      wherever it arrives: the items before and after it stay, in order. */
  lemma StreamItemsDropsFailures<Resp>(outputType: string, a: seq<Bytes>, p: Bytes, b: seq<Bytes>,
                                       decode: (string, Bytes) -> Option<Resp>)
    requires decode(outputType, p).None?
    ensures StreamItems(outputType, a + [p] + b, decode) == StreamItems(outputType, a + b, decode)
  {
    StreamItemsAppend(outputType, a + [p], b, decode);
    StreamItemsAppend(outputType, a, [p], decode);
    StreamItemsAppend(outputType, a, b, decode);
    assert StreamItems(outputType, [p], decode) == [];
  }

  lemma {:induction false} DeliveredAll(inbox: string, events: seq<Event>)
    requires forall k :: 0 <= k < |events| ==> events[k].Published? && events[k].subject == inbox
    ensures Delivered(inbox, events) == seq(|events|, k requires 0 <= k < |events| => events[k].payload)
  {
    if events != [] {
      DeliveredAll(inbox, events[1..]);
    }
  }

  // ---------------------------------------------------------------------
  // Client and server together
  // ---------------------------------------------------------------------

  /** A call reaches the arm generated for its method when client and server
      prefixes trim alike and no earlier method shares its subject. */
  lemma CallIsRouted(serverPrefix: string, arms: seq<Binding>, clientPrefix: string, i: nat,
                     payload: Bytes, inbox: string)
    requires TrimEnd(clientPrefix, Delimiter) == TrimEnd(serverPrefix, Delimiter)
    requires i < |arms|
    requires forall j :: 0 <= j < i ==> arms[j].subject != arms[i].subject
    ensures Route(serverPrefix, arms, RequestFor(clientPrefix, arms[i], payload, inbox).subject) == Some(arms[i])
  {
    var subject := ClientSubject(clientPrefix, arms[i].subject);
    forall j | 0 <= j < i ensures subject != ClientSubject(serverPrefix, arms[j].subject) {
      ClientSubjectSuffixInjective(serverPrefix, arms[j].subject, arms[i].subject);
    }
    RouteFirst(serverPrefix, arms, subject, i);
  }

  /** A request / response call answered by a server whose handler succeeds:
      the server publishes exactly one reply, to the call's inbox, and the
      client decodes it to the handler's response. */
  lemma UnaryEndToEnd<Req, Resp(!new)>(server: Server<Req, Resp>, arms: seq<Binding>, clientPrefix: string,
                                 i: nat, payload: Bytes, inbox: string, publishOk: nat -> bool,
                                 sent: nat, clientDecode: (string, Bytes) -> Option<Resp>)
    requires TrimEnd(clientPrefix, Delimiter) == TrimEnd(server.subjectPrefix, Delimiter)
    requires i < |arms| && !arms[i].serverStreaming
    requires forall j :: 0 <= j < i ==> arms[j].subject != arms[i].subject
    requires server.decode(arms[i].inputType, payload).Some?
    requires server.unary(arms[i].functionName, server.decode(arms[i].inputType, payload).value).Some?
    requires publishOk(sent)
    requires RoundTrips(server.encode, clientDecode, arms[i].outputType)
    ensures var resp := server.unary(arms[i].functionName, server.decode(arms[i].inputType, payload).value).value;
      var t := HandleMessage(server, arms, publishOk, sent, RequestFor(clientPrefix, arms[i], payload, inbox));
      && t == Trace([Published(inbox, server.encode(resp))], Finished)
      && Delivered(inbox, t.events) == [server.encode(resp)]
      && UnaryCall(arms[i], Some(server.encode(resp)), clientDecode) == Ok(resp)
  {
    CallIsRouted(server.subjectPrefix, arms, clientPrefix, i, payload, inbox);
    var resp := server.unary(arms[i].functionName, server.decode(arms[i].inputType, payload).value).value;
    assert clientDecode(arms[i].outputType, server.encode(resp)) == Some(resp);
  }

  /** A server-streaming call answered by a server whose handler succeeds and
      whose publishes all go through: the inbox receives one payload per
      reply, in order, and the client's stream is exactly the handler's
      replies. */
  lemma StreamingEndToEnd<Req, Resp(!new)>(server: Server<Req, Resp>, arms: seq<Binding>, clientPrefix: string,
                                     i: nat, payload: Bytes, inbox: string, publishOk: nat -> bool,
                                     sent: nat, clientDecode: (string, Bytes) -> Option<Resp>)
    requires TrimEnd(clientPrefix, Delimiter) == TrimEnd(server.subjectPrefix, Delimiter)
    requires i < |arms| && arms[i].serverStreaming
    requires forall j :: 0 <= j < i ==> arms[j].subject != arms[i].subject
    requires server.decode(arms[i].inputType, payload).Some?
    requires server.streaming(arms[i].functionName, server.decode(arms[i].inputType, payload).value).Some?
    requires var replies := server.streaming(arms[i].functionName,
                                             server.decode(arms[i].inputType, payload).value).value;
      forall n :: sent <= n < sent + |replies| ==> publishOk(n)
    requires RoundTrips(server.encode, clientDecode, arms[i].outputType)
    ensures var replies := server.streaming(arms[i].functionName,
                                            server.decode(arms[i].inputType, payload).value).value;
      var t := HandleMessage(server, arms, publishOk, sent, RequestFor(clientPrefix, arms[i], payload, inbox));
      && t.outcome == Finished
      && Delivered(inbox, t.events)
           == seq(|replies|, k requires 0 <= k < |replies| => server.encode(replies[k]))
      && StreamCall(arms[i], true, Delivered(inbox, t.events), clientDecode) == Ok(replies)
  {
    var m := RequestFor(clientPrefix, arms[i], payload, inbox);
    CallIsRouted(server.subjectPrefix, arms, clientPrefix, i, payload, inbox);
    var replies := server.streaming(arms[i].functionName, server.decode(arms[i].inputType, payload).value).value;
    StreamingReplies(server, arms, publishOk, sent, m);
    var t := HandleMessage(server, arms, publishOk, sent, m);
    var payloads := seq(|replies|, k requires 0 <= k < |replies| => server.encode(replies[k]));
    DeliveredAll(inbox, t.events);
    assert Delivered(inbox, t.events) == payloads;
    forall k | 0 <= k < |payloads| ensures clientDecode(arms[i].outputType, payloads[k]) == Some(replies[k]) {
      assert payloads[k] == server.encode(replies[k]);
    }
    StreamItemsAllDecode(arms[i].outputType, payloads, clientDecode);
    assert StreamItems(arms[i].outputType, payloads, clientDecode) == replies;
  }
}
