/** The server's dispatch loop: the `start_server` function the generator
    emits for every service (src/lib.rs:267-357).

    After subscribing to everything under its subject prefix, the loop takes
    the inbound messages one at a time. Each subject is matched against the
    request / response methods in declaration order; a match decodes the
    payload, calls the handler and publishes the encoded reply or replies to
    the message's reply-to subject. A decode, handler or publish failure
    ends the whole loop with that error; an unknown subject or a missing
    reply-to subject is only reported, and the loop goes on. When the
    subscription runs out of messages the loop returns `Ok(())`.

    The bus is replaced by a finite sequence of inbound messages and a log
    of what the loop does; the codec and the handlers are functions the
    caller supplies; whether the bus accepts the n-th publish of the run is
    the oracle `publishOk(n)`. */
module Dispatcher {
  import opened Options
  import opened Subjects
  import opened Classifier
  import opened Bindings

  type Bytes = seq<bv8>

  /** An inbound message as the subscription delivers it. */
  datatype Message = Message(subject: string, payload: Bytes, reply: Option<string>)

  /** What an observer of the loop sees, in order: replies published on the
      bus and the two diagnostics the loop prints. */
  datatype Event =
    | Published(subject: string, payload: Bytes)
    | UnknownSubject(subject: string)
    | NoReplySubject

  /** The errors that end the loop, each with the context the generated code
      attaches to it. */
  datatype Failure =
    | DecodeFailed(inputType: string)
    | HandlerFailed(inputType: string)
    | PublishFailed

  /** `Ok(())` when the messages ran out, `Err` otherwise. */
  datatype Outcome = Finished | Failed(failure: Failure)

  datatype Trace = Trace(events: seq<Event>, outcome: Outcome)

  /** The user's server: its subject prefix (`subject_prefix()`, by default
      `nats.proto`), the payload decoder for each input type, and one handler
      per function name, returning one reply or a finite stream of them. The
      encoder cannot fail (the generated code `expect`s it). */
  datatype Server<!Req, !Resp> = Server(
    subjectPrefix: string,
    decode: (string, Bytes) -> Option<Req>,
    unary: (string, Req) -> Option<Resp>,
    streaming: (string, Req) -> Option<seq<Resp>>,
    encode: Resp -> Bytes)

  function Prefixed(events: seq<Event>, t: Trace): Trace
  {
    Trace(events + t.events, t.outcome)
  }

  /** Number of replies published in `events`. */
  function PublishCount(events: seq<Event>): nat
  {
    if events == [] then 0
    else (if events[0].Published? then 1 else 0) + PublishCount(events[1..])
  }

  // ---------------------------------------------------------------------
  // Routing
  // ---------------------------------------------------------------------

  /** The `match` on `strip_prefix`'s result: the first arm whose pattern
      `Some(".<subject>")` equals it, or none (the `_` arm). */
  function MatchArm(arms: seq<Binding>, rest: Option<string>): Option<Binding>
  {
    match rest
    case None => None
    case Some(s) =>
      if arms == [] then None
      else if [Delimiter] + arms[0].subject == s then Some(arms[0])
      else MatchArm(arms[1..], rest)
  }

  /** The arm an inbound subject is dispatched to. */
  function Route(prefix: string, arms: seq<Binding>, subject: string): Option<Binding>
  {
    MatchArm(arms, StripPrefix(subject, TrimEnd(prefix, Delimiter)))
  }

  lemma {:induction false} MatchArmFirst(arms: seq<Binding>, s: string, i: nat)
    requires i < |arms| && [Delimiter] + arms[i].subject == s
    requires forall j :: 0 <= j < i ==> [Delimiter] + arms[j].subject != s
    ensures MatchArm(arms, Some(s)) == Some(arms[i])
  {
    if i > 0 {
      MatchArmFirst(arms[1..], s, i - 1);
    }
  }

  lemma {:induction false} MatchArmNone(arms: seq<Binding>, s: string)
    ensures MatchArm(arms, Some(s)) == None
        <==> forall j :: 0 <= j < |arms| ==> [Delimiter] + arms[j].subject != s
  {
    if arms != [] {
      MatchArmNone(arms[1..], s);
      if [Delimiter] + arms[0].subject != s {
        forall j | 0 <= j < |arms| && [Delimiter] + arms[j].subject == s
          ensures j > 0 && [Delimiter] + arms[1..][j - 1].subject == s
        {
        }
      }
    }
  }

  lemma {:induction false} MatchArmFound(arms: seq<Binding>, s: string) returns (i: nat)
    requires MatchArm(arms, Some(s)).Some?
    ensures i < |arms| && MatchArm(arms, Some(s)) == Some(arms[i])
    ensures [Delimiter] + arms[i].subject == s
    ensures forall j :: 0 <= j < i ==> [Delimiter] + arms[j].subject != s
  {
    if [Delimiter] + arms[0].subject == s {
      i := 0;
    } else {
      var k := MatchArmFound(arms[1..], s);
      i := k + 1;
    }
  }

  /** A message is dispatched to a method only if its subject is the one a
      client composes for that method under the same prefix, and then to the
      first such method in declaration order. */
  lemma RouteFound(prefix: string, arms: seq<Binding>, subject: string) returns (i: nat)
    requires Route(prefix, arms, subject).Some?
    ensures i < |arms| && Route(prefix, arms, subject) == Some(arms[i])
    ensures subject == ClientSubject(prefix, arms[i].subject)
    ensures forall j :: 0 <= j < i ==> subject != ClientSubject(prefix, arms[j].subject)
  {
    var rest := StripPrefix(subject, TrimEnd(prefix, Delimiter));
    i := MatchArmFound(arms, rest.value);
    ServerAcceptsIff(prefix, subject, arms[i].subject);
    forall j | 0 <= j < i ensures subject != ClientSubject(prefix, arms[j].subject) {
      ServerAcceptsIff(prefix, subject, arms[j].subject);
    }
  }

  /** The subject a client composes for a method reaches the first arm with
      that subject. */
  lemma RouteFirst(prefix: string, arms: seq<Binding>, subject: string, i: nat)
    requires i < |arms| && subject == ClientSubject(prefix, arms[i].subject)
    requires forall j :: 0 <= j < i ==> subject != ClientSubject(prefix, arms[j].subject)
    ensures Route(prefix, arms, subject) == Some(arms[i])
  {
    var rest := StripPrefix(subject, TrimEnd(prefix, Delimiter));
    ServerAcceptsIff(prefix, subject, arms[i].subject);
    forall j | 0 <= j < i ensures [Delimiter] + arms[j].subject != rest.value {
      ServerAcceptsIff(prefix, subject, arms[j].subject);
    }
    MatchArmFirst(arms, rest.value, i);
  }

  /** A subject is left unrouted exactly when no method's composed subject
      equals it. */
  lemma RouteNone(prefix: string, arms: seq<Binding>, subject: string)
    ensures Route(prefix, arms, subject) == None
        <==> forall j :: 0 <= j < |arms| ==> subject != ClientSubject(prefix, arms[j].subject)
  {
    var rest := StripPrefix(subject, TrimEnd(prefix, Delimiter));
    forall j | 0 <= j < |arms|
      ensures (rest.Some? && [Delimiter] + arms[j].subject == rest.value)
          <==> subject == ClientSubject(prefix, arms[j].subject)
    {
      ServerAcceptsIff(prefix, subject, arms[j].subject);
    }
    if rest.Some? {
      MatchArmNone(arms, rest.value);
    }
  }

  /** Of two methods with the same subject suffix, the later one is never
      dispatched to (unless the same binding also occurs earlier). */
  lemma FirstMatchWins(prefix: string, arms: seq<Binding>, subject: string, i: nat, j: nat)
    requires i < j < |arms| && arms[i].subject == arms[j].subject
    requires forall k :: 0 <= k < j ==> arms[k] != arms[j]
    ensures Route(prefix, arms, subject) != Some(arms[j])
  {
    if Route(prefix, arms, subject) == Some(arms[j]) {
      var k := RouteFound(prefix, arms, subject);
    }
  }

  // ---------------------------------------------------------------------
  // One message
  // ---------------------------------------------------------------------

  /** The inner `while let` of a streaming arm: publish every reply to `to`
      in the order the handler produced them, stopping at the first publish
      the bus refuses. */
  function PublishReplies<Resp>(to: string, replies: seq<Resp>, encode: Resp -> Bytes,
                                publishOk: nat -> bool, sent: nat): Trace
    decreases |replies|
  {
    if replies == [] then Trace([], Finished)
    else if !publishOk(sent) then Trace([], Failed(PublishFailed))
    else Prefixed([Published(to, encode(replies[0]))],
                  PublishReplies(to, replies[1..], encode, publishOk, sent + 1))
  }

  /** The body of the arm for binding `b`. */
  function HandleRouted<Req, Resp>(server: Server<Req, Resp>, b: Binding, publishOk: nat -> bool,
                                   sent: nat, message: Message): Trace
  {
    match server.decode(b.inputType, message.payload)
    case None => Trace([], Failed(DecodeFailed(b.inputType)))
    case Some(request) =>
      if b.serverStreaming then
        match server.streaming(b.functionName, request)
        case None => Trace([], Failed(HandlerFailed(b.inputType)))
        case Some(replies) =>
          match message.reply
          case None => Trace([NoReplySubject], Finished)
          case Some(to) => PublishReplies(to, replies, server.encode, publishOk, sent)
      else
        match server.unary(b.functionName, request)
        case None => Trace([], Failed(HandlerFailed(b.inputType)))
        case Some(reply) =>
          match message.reply
          case None => Trace([NoReplySubject], Finished)
          case Some(to) =>
            if publishOk(sent) then Trace([Published(to, server.encode(reply))], Finished)
            else Trace([], Failed(PublishFailed))
  }

  /** One turn of the outer loop: route the message, then run its arm or
      report the unknown subject. */
  function HandleMessage<Req, Resp>(server: Server<Req, Resp>, arms: seq<Binding>,
                                    publishOk: nat -> bool, sent: nat, message: Message): Trace
  {
    match Route(server.subjectPrefix, arms, message.subject)
    case None => Trace([UnknownSubject(message.subject)], Finished)
    case Some(b) => HandleRouted(server, b, publishOk, sent, message)
  }

  /** The outer loop over `inbound` for any per-message step, `sent` replies
      having been published before it: stop at the first failing step,
      otherwise go on with the next message. */
  function Loop(step: (nat, Message) -> Trace, inbound: seq<Message>, sent: nat): Trace
    decreases |inbound|
  {
    if inbound == [] then Trace([], Finished)
    else
      var t := step(sent, inbound[0]);
      if t.outcome.Failed? then t
      else Prefixed(t.events, Loop(step, inbound[1..], sent + PublishCount(t.events)))
  }

  /** One turn of the dispatch loop, as a function of the number of replies
      published so far and the message. */
  function Step<Req, Resp>(server: Server<Req, Resp>, arms: seq<Binding>,
                           publishOk: nat -> bool): (nat, Message) -> Trace
  {
    (n: nat, m: Message) => HandleMessage(server, arms, publishOk, n, m)
  }

  /** The whole dispatch loop over `inbound`. */
  function Run<Req, Resp>(server: Server<Req, Resp>, arms: seq<Binding>, publishOk: nat -> bool,
                          inbound: seq<Message>, sent: nat): Trace
  {
    Loop(Step(server, arms, publishOk), inbound, sent)
  }

  // ---------------------------------------------------------------------
  // The loop itself
  // ---------------------------------------------------------------------

  /** The inner `while let` of a streaming arm: one publish per reply, in
      order, until the replies run out or the bus refuses one. */
  method PublishStream<Resp>(to: string, rs: seq<Resp>, encode: Resp -> Bytes,
                             publishOk: nat -> bool, sent: nat)
    returns (events: seq<Event>, outcome: Outcome)
    ensures Trace(events, outcome) == PublishReplies(to, rs, encode, publishOk, sent)
    ensures PublishCount(events) == |events|
  {
    events, outcome := [], Finished;
    var k := 0;
    while k < |rs|
      invariant 0 <= k <= |rs|
      invariant PublishCount(events) == |events|
      invariant PublishReplies(to, rs, encode, publishOk, sent)
             == Prefixed(events, PublishReplies(to, rs[k..], encode, publishOk, sent + k))
    {
      PublishRepliesAt(to, rs, encode, publishOk, sent, k);
      if !publishOk(sent + k) {
        outcome := Failed(PublishFailed);
        return;
      }
      var e := Published(to, encode(rs[k]));
      PrefixedTwice(events, [e], PublishReplies(to, rs[k + 1..], encode, publishOk, sent + k + 1));
      PublishCountAppend(events, [e]);
      events := events + [e];
      k := k + 1;
    }
    assert rs[k..] == [];
  }

  lemma PublishRepliesAt<Resp>(to: string, rs: seq<Resp>, encode: Resp -> Bytes,
                               publishOk: nat -> bool, sent: nat, k: nat)
    requires k < |rs|
    ensures PublishReplies(to, rs[k..], encode, publishOk, sent + k)
         == if !publishOk(sent + k) then Trace([], Failed(PublishFailed))
            else Prefixed([Published(to, encode(rs[k]))],
                          PublishReplies(to, rs[k + 1..], encode, publishOk, sent + k + 1))
  {
    SliceCons(rs, k);
    assert rs[k..][0] == rs[k] && rs[k..][1..] == rs[k + 1..];
  }

  /** One message, as the generated match does it; the streaming arm's inner
      loop publishes one reply per iteration. */
  method DispatchMessage<Req, Resp>(server: Server<Req, Resp>, arms: seq<Binding>,
                                    subjectPrefix: string, publishOk: nat -> bool,
                                    sent: nat, message: Message)
    returns (events: seq<Event>, outcome: Outcome)
    requires subjectPrefix == TrimEnd(server.subjectPrefix, Delimiter)
    ensures Trace(events, outcome) == HandleMessage(server, arms, publishOk, sent, message)
    ensures PublishCount(events) <= |events|
  {
    var route := MatchArm(arms, StripPrefix(message.subject, subjectPrefix));
    if route.None? {
      events, outcome := [UnknownSubject(message.subject)], Finished;
      return;
    }
    var b := route.value;
    var request := server.decode(b.inputType, message.payload);
    if request.None? {
      events, outcome := [], Failed(DecodeFailed(b.inputType));
      return;
    }
    if b.serverStreaming {
      var replies := server.streaming(b.functionName, request.value);
      if replies.None? {
        events, outcome := [], Failed(HandlerFailed(b.inputType));
        return;
      }
      if message.reply.None? {
        events, outcome := [NoReplySubject], Finished;
        return;
      }
      events, outcome := PublishStream(message.reply.value, replies.value, server.encode, publishOk, sent);
    } else {
      var reply := server.unary(b.functionName, request.value);
      if reply.None? {
        events, outcome := [], Failed(HandlerFailed(b.inputType));
        return;
      }
      if message.reply.None? {
        events, outcome := [NoReplySubject], Finished;
        return;
      }
      if !publishOk(sent) {
        events, outcome := [], Failed(PublishFailed);
        return;
      }
      events, outcome := [Published(message.reply.value, server.encode(reply.value))], Finished;
    }
  }

  lemma {:induction false} PublishCountAppend(a: seq<Event>, b: seq<Event>)
    ensures PublishCount(a + b) == PublishCount(a) + PublishCount(b)
  {
    if a != [] {
      assert (a + b)[0] == a[0] && (a + b)[1..] == a[1..] + b;
      PublishCountAppend(a[1..], b);
    } else {
      assert a + b == b;
    }
  }

  lemma PrefixedTwice(a: seq<Event>, b: seq<Event>, t: Trace)
    ensures Prefixed(a, Prefixed(b, t)) == Prefixed(a + b, t)
  {
    assert a + (b + t.events) == a + b + t.events;
  }

  lemma SliceCons<T>(s: seq<T>, i: nat)
    requires i < |s|
    ensures s[i..] == [s[i]] + s[i + 1..]
  {
  }

  lemma LoopCons(step: (nat, Message) -> Trace, message: Message, rest: seq<Message>, sent: nat)
    ensures var t := step(sent, message);
      Loop(step, [message] + rest, sent)
        == if t.outcome.Failed? then t
           else Prefixed(t.events, Loop(step, rest, sent + PublishCount(t.events)))
  {
    assert ([message] + rest)[0] == message && ([message] + rest)[1..] == rest;
  }

  /** One turn of `StartServer`'s loop, on the specification side: the
      message at `i` either fails the loop or adds its events and moves
      on. */
  lemma LoopAdvance(step: (nat, Message) -> Trace, inbound: seq<Message>, i: nat, sent: nat,
                    events: seq<Event>, whole: Trace, stepEvents: seq<Event>, stepOutcome: Outcome)
    requires i < |inbound|
    requires whole == Prefixed(events, Loop(step, inbound[i..], sent))
    requires step(sent, inbound[i]) == Trace(stepEvents, stepOutcome)
    ensures stepOutcome.Failed? ==> whole == Trace(events + stepEvents, stepOutcome)
    ensures !stepOutcome.Failed? ==>
      whole == Prefixed(events + stepEvents, Loop(step, inbound[i + 1..], sent + PublishCount(stepEvents)))
  {
    SliceCons(inbound, i);
    LoopCons(step, inbound[i], inbound[i + 1..], sent);
    if !stepOutcome.Failed? {
      PrefixedTwice(events, stepEvents, Loop(step, inbound[i + 1..], sent + PublishCount(stepEvents)));
    }
  }

  /** `LoopAdvance` for the dispatch loop itself. */
  lemma RunAdvance<Req, Resp>(server: Server<Req, Resp>, arms: seq<Binding>, publishOk: nat -> bool,
                              inbound: seq<Message>, i: nat, sent: nat, events: seq<Event>, whole: Trace,
                              stepEvents: seq<Event>, stepOutcome: Outcome)
    requires i < |inbound|
    requires whole == Prefixed(events, Run(server, arms, publishOk, inbound[i..], sent))
    requires HandleMessage(server, arms, publishOk, sent, inbound[i]) == Trace(stepEvents, stepOutcome)
    ensures stepOutcome.Failed? ==> whole == Trace(events + stepEvents, stepOutcome)
    ensures !stepOutcome.Failed? ==>
      whole == Prefixed(events + stepEvents, Run(server, arms, publishOk, inbound[i + 1..], sent + PublishCount(stepEvents)))
  {
    var step := Step(server, arms, publishOk);
    assert step(sent, inbound[i]) == Trace(stepEvents, stepOutcome);
    LoopAdvance(step, inbound, i, sent, events, whole, stepEvents, stepOutcome);
    var next := sent + PublishCount(stepEvents);
    assert Run(server, arms, publishOk, inbound[i + 1..], next) == Loop(step, inbound[i + 1..], next);
  }

  /** One turn of the `start_server` loop: handle `inbound[i]`, extend the
      log, and say whether the loop stops here. `whole` is the trace of the
      entire run, of which `events` is the part already logged. */
  method ServeNext<Req, Resp>(server: Server<Req, Resp>, arms: seq<Binding>, subjectPrefix: string,
                              publishOk: nat -> bool, inbound: seq<Message>, i: nat, sent: nat,
                              events: seq<Event>, ghost whole: Trace)
    returns (next: seq<Event>, outcome: Outcome, nextSent: nat)
    requires subjectPrefix == TrimEnd(server.subjectPrefix, Delimiter)
    requires i < |inbound| && sent == PublishCount(events)
    requires whole == Prefixed(events, Run(server, arms, publishOk, inbound[i..], sent))
    ensures outcome.Failed? ==> whole == Trace(next, outcome)
    ensures !outcome.Failed? ==> nextSent == PublishCount(next)
    ensures !outcome.Failed? ==> whole == Prefixed(next, Run(server, arms, publishOk, inbound[i + 1..], nextSent))
  {
    var stepEvents;
    stepEvents, outcome := DispatchMessage(server, arms, subjectPrefix, publishOk, sent, inbound[i]);
    RunAdvance(server, arms, publishOk, inbound, i, sent, events, whole, stepEvents, outcome);
    PublishCountAppend(events, stepEvents);
    next, nextSent := events + stepEvents, sent + PublishCount(stepEvents);
  }

  /** The generated `start_server` loop: its log and result are those of
      `Run` over the whole inbound sequence. */
  method StartServer<Req, Resp>(service: Service, server: Server<Req, Resp>,
                                publishOk: nat -> bool, inbound: seq<Message>)
    returns (events: seq<Event>, outcome: Outcome)
    ensures Trace(events, outcome) == Run(server, ServiceBindings(service.methods), publishOk, inbound, 0)
  {
    var arms := ServiceBindings(service.methods);
    var subjectPrefix := TrimEnd(server.subjectPrefix, Delimiter);
    ghost var whole := Run(server, arms, publishOk, inbound, 0);
    events, outcome := [], Finished;
    var sent := 0;
    var i := 0;
    while i < |inbound|
      invariant 0 <= i <= |inbound|
      invariant sent == PublishCount(events)
      invariant whole == Prefixed(events, Run(server, arms, publishOk, inbound[i..], sent))
    {
      var stepOutcome;
      events, stepOutcome, sent := ServeNext(server, arms, subjectPrefix, publishOk, inbound, i, sent, events, whole);
      if stepOutcome.Failed? {
        outcome := stepOutcome;
        return;
      }
      i := i + 1;
    }
    assert inbound[i..] == [];
  }

  // ---------------------------------------------------------------------
  // Properties of the loop
  // ---------------------------------------------------------------------

  /** A message on an unknown subject yields one diagnostic, publishes
      nothing, and the loop goes on with the next message. */
  lemma UnknownSubjectContinues<Req, Resp>(server: Server<Req, Resp>, arms: seq<Binding>,
                                           publishOk: nat -> bool, message: Message,
                                           rest: seq<Message>, sent: nat)
    requires Route(server.subjectPrefix, arms, message.subject) == None
    ensures Run(server, arms, publishOk, [message] + rest, sent)
         == Prefixed([UnknownSubject(message.subject)], Run(server, arms, publishOk, rest, sent))
  {
    LoopCons(Step(server, arms, publishOk), message, rest, sent);
    assert PublishCount([UnknownSubject(message.subject)]) == 0;
  }

  /** A run over messages none of which is routed only reports each
      subject, in order, and ends with `Ok`. */
  lemma {:induction false} RunOnlyUnknown<Req, Resp>(server: Server<Req, Resp>, arms: seq<Binding>,
                                                     publishOk: nat -> bool, inbound: seq<Message>,
                                                     sent: nat)
    requires forall k :: 0 <= k < |inbound| ==> Route(server.subjectPrefix, arms, inbound[k].subject) == None
    ensures Run(server, arms, publishOk, inbound, sent)
         == Trace(seq(|inbound|, k requires 0 <= k < |inbound| => UnknownSubject(inbound[k].subject)),
                  Finished)
  {
    if inbound != [] {
      RunOnlyUnknown(server, arms, publishOk, inbound[1..], sent);
      assert inbound == [inbound[0]] + inbound[1..];
      UnknownSubjectContinues(server, arms, publishOk, inbound[0], inbound[1..], sent);
    }
  }

  /** A non-streaming method publishes its one encoded reply to the
      reply-to subject when there is one and nothing otherwise. */
  lemma UnaryReply<Req, Resp>(server: Server<Req, Resp>, arms: seq<Binding>, publishOk: nat -> bool,
                              sent: nat, message: Message)
    requires Route(server.subjectPrefix, arms, message.subject).Some?
    requires var b := Route(server.subjectPrefix, arms, message.subject).value;
      && !b.serverStreaming
      && server.decode(b.inputType, message.payload).Some?
      && server.unary(b.functionName, server.decode(b.inputType, message.payload).value).Some?
    ensures var b := Route(server.subjectPrefix, arms, message.subject).value;
      var reply := server.unary(b.functionName, server.decode(b.inputType, message.payload).value).value;
      var t := HandleMessage(server, arms, publishOk, sent, message);
      && (message.reply.None? ==> t == Trace([NoReplySubject], Finished))
      && (message.reply.Some? && publishOk(sent) ==>
            t == Trace([Published(message.reply.value, server.encode(reply))], Finished))
      && (message.reply.Some? && !publishOk(sent) ==> t == Trace([], Failed(PublishFailed)))
      && PublishCount(t.events) == if message.reply.Some? && publishOk(sent) then 1 else 0
  {
  }

  /** Every reply of a stream is published to `to`, in the order the handler
      produced them, when the bus accepts them all. */
  lemma {:induction false} PublishRepliesAll<Resp>(to: string, replies: seq<Resp>, encode: Resp -> Bytes,
                                                  publishOk: nat -> bool, sent: nat)
    requires forall n :: sent <= n < sent + |replies| ==> publishOk(n)
    ensures PublishReplies(to, replies, encode, publishOk, sent)
         == Trace(seq(|replies|, k requires 0 <= k < |replies| => Published(to, encode(replies[k]))),
                  Finished)
  {
    if replies != [] {
      PublishRepliesAll(to, replies[1..], encode, publishOk, sent + 1);
    }
  }

  /** When the bus refuses the `j`-th reply of a stream, the first `j`
      replies have been published, in order, and the loop fails. */
  lemma {:induction false} PublishRepliesRefused<Resp>(to: string, replies: seq<Resp>,
                                                      encode: Resp -> Bytes, publishOk: nat -> bool,
                                                      sent: nat, j: nat)
    requires j < |replies|
    requires forall n :: sent <= n < sent + j ==> publishOk(n)
    requires !publishOk(sent + j)
    ensures PublishReplies(to, replies, encode, publishOk, sent)
         == Trace(seq(j, k requires 0 <= k < j => Published(to, encode(replies[k]))),
                  Failed(PublishFailed))
  {
    if j > 0 {
      PublishRepliesRefused(to, replies[1..], encode, publishOk, sent + 1, j - 1);
    }
  }

  /** A server-streaming method publishes its replies to the reply-to
      subject and, without one, publishes nothing and reports it. */
  lemma StreamingReplies<Req, Resp>(server: Server<Req, Resp>, arms: seq<Binding>,
                                    publishOk: nat -> bool, sent: nat, message: Message)
    requires Route(server.subjectPrefix, arms, message.subject).Some?
    requires var b := Route(server.subjectPrefix, arms, message.subject).value;
      && b.serverStreaming
      && server.decode(b.inputType, message.payload).Some?
      && server.streaming(b.functionName, server.decode(b.inputType, message.payload).value).Some?
    ensures var b := Route(server.subjectPrefix, arms, message.subject).value;
      var replies := server.streaming(b.functionName, server.decode(b.inputType, message.payload).value).value;
      var t := HandleMessage(server, arms, publishOk, sent, message);
      && (message.reply.None? ==> t == Trace([NoReplySubject], Finished))
      && (message.reply.Some? && (forall n :: sent <= n < sent + |replies| ==> publishOk(n)) ==>
            t == Trace(seq(|replies|, k requires 0 <= k < |replies| =>
                             Published(message.reply.value, server.encode(replies[k]))),
                       Finished))
  {
    var b := Route(server.subjectPrefix, arms, message.subject).value;
    var replies := server.streaming(b.functionName, server.decode(b.inputType, message.payload).value).value;
    if message.reply.Some? && (forall n :: sent <= n < sent + |replies| ==> publishOk(n)) {
      PublishRepliesAll(message.reply.value, replies, server.encode, publishOk, sent);
    }
  }

  /** A payload that does not decode, or a handler that fails, on a routed
      message ends the loop at once: nothing is published for it and no
      later message is looked at. */
  lemma RoutedFailureStops<Req, Resp>(server: Server<Req, Resp>, arms: seq<Binding>,
                                      publishOk: nat -> bool, message: Message,
                                      rest: seq<Message>, sent: nat)
    requires Route(server.subjectPrefix, arms, message.subject).Some?
    requires var b := Route(server.subjectPrefix, arms, message.subject).value;
      var request := server.decode(b.inputType, message.payload);
      || request.None?
      || (b.serverStreaming && server.streaming(b.functionName, request.value).None?)
      || (!b.serverStreaming && server.unary(b.functionName, request.value).None?)
    ensures var b := Route(server.subjectPrefix, arms, message.subject).value;
      var t := Run(server, arms, publishOk, [message] + rest, sent);
      && t.events == []
      && t.outcome == Failed(if server.decode(b.inputType, message.payload).None?
                             then DecodeFailed(b.inputType) else HandlerFailed(b.inputType))
  {
    assert ([message] + rest)[0] == message;
  }

  /** Once the loop has failed, later messages change nothing. */
  lemma {:induction false} LoopStopsAtFailure(step: (nat, Message) -> Trace, inbound: seq<Message>,
                                              more: seq<Message>, sent: nat)
    requires Loop(step, inbound, sent).outcome.Failed?
    ensures Loop(step, inbound + more, sent) == Loop(step, inbound, sent)
  {
    var t := step(sent, inbound[0]);
    assert (inbound + more)[0] == inbound[0];
    if !t.outcome.Failed? {
      assert (inbound + more)[1..] == inbound[1..] + more;
      LoopStopsAtFailure(step, inbound[1..], more, sent + PublishCount(t.events));
    }
  }

  /** A failed run failed on one message, message `k`: the messages before
      it were all processed without error and none after it was looked
      at. */
  lemma {:induction false} LoopFailsAt(step: (nat, Message) -> Trace, inbound: seq<Message>, sent: nat)
    returns (k: nat)
    requires Loop(step, inbound, sent).outcome.Failed?
    ensures k < |inbound|
    ensures Loop(step, inbound[..k], sent).outcome == Finished
    ensures Loop(step, inbound[..k + 1], sent) == Loop(step, inbound, sent)
  {
    var t := step(sent, inbound[0]);
    if t.outcome.Failed? {
      k := 0;
      assert inbound[..1][0] == inbound[0];
    } else {
      var sent' := sent + PublishCount(t.events);
      var j := LoopFailsAt(step, inbound[1..], sent');
      k := j + 1;
      assert inbound[..k][0] == inbound[0] && inbound[..k][1..] == inbound[1..][..j];
      assert inbound[..k + 1][0] == inbound[0] && inbound[..k + 1][1..] == inbound[1..][..j + 1];
    }
  }

  /** Every reply the loop publishes goes to the reply-to subject of a
      message it routed to a method. */
  lemma {:induction false} PublishesGoToReplySubjects<Req, Resp>(server: Server<Req, Resp>,
                                                                 arms: seq<Binding>,
                                                                 publishOk: nat -> bool,
                                                                 inbound: seq<Message>, sent: nat)
    ensures var events := Run(server, arms, publishOk, inbound, sent).events;
      forall e :: e in events && e.Published? ==>
        exists m :: m in inbound && m.reply == Some(e.subject)
                 && Route(server.subjectPrefix, arms, m.subject).Some?
  {
    if inbound != [] {
      var m := inbound[0];
      var step := HandleMessage(server, arms, publishOk, sent, m);
      HandleMessagePublishesToReply(server, arms, publishOk, sent, m);
      if !step.outcome.Failed? {
        var sent' := sent + PublishCount(step.events);
        PublishesGoToReplySubjects(server, arms, publishOk, inbound[1..], sent');
        forall e | e in Run(server, arms, publishOk, inbound[1..], sent').events && e.Published?
          ensures exists m' :: m' in inbound && m'.reply == Some(e.subject)
                            && Route(server.subjectPrefix, arms, m'.subject).Some?
        {
          var m' :| m' in inbound[1..] && m'.reply == Some(e.subject)
                 && Route(server.subjectPrefix, arms, m'.subject).Some?;
          assert m' in inbound;
        }
      }
    }
  }

  lemma HandleMessagePublishesToReply<Req, Resp>(server: Server<Req, Resp>, arms: seq<Binding>,
                                                 publishOk: nat -> bool, sent: nat, message: Message)
    ensures forall e :: e in HandleMessage(server, arms, publishOk, sent, message).events && e.Published? ==>
      message.reply == Some(e.subject) && Route(server.subjectPrefix, arms, message.subject).Some?
  {
    var route := Route(server.subjectPrefix, arms, message.subject);
    if route.Some? && message.reply.Some? {
      var b := route.value;
      var request := server.decode(b.inputType, message.payload);
      if request.Some? && b.serverStreaming {
        var replies := server.streaming(b.functionName, request.value);
        if replies.Some? {
          PublishRepliesTo(message.reply.value, replies.value, server.encode, publishOk, sent);
        }
      }
    }
  }

  lemma {:induction false} PublishRepliesTo<Resp>(to: string, replies: seq<Resp>, encode: Resp -> Bytes,
                                                 publishOk: nat -> bool, sent: nat)
    ensures forall e :: e in PublishReplies(to, replies, encode, publishOk, sent).events ==>
      e.Published? && e.subject == to
  {
    if replies != [] && publishOk(sent) {
      PublishRepliesTo(to, replies[1..], encode, publishOk, sent + 1);
    }
  }
}
