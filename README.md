# protobuf-nats-service-generator, modelled in Dafny

`protobuf-nats-service-generator` is a plug-in for the Rust protobuf
compiler. For every service in a `.proto` file it emits Rust code that
carries the service's calls over a NATS message bus:

- a client trait and its implementation on the NATS client. A call encodes
  the request and sends it to `<prefix>.<method subject>`. It then decodes
  either one reply or a stream of replies.
- a server trait with one handler per request / response method.
- a `start_server` function. It subscribes under the server's prefix and
  dispatches each inbound message to its handler. Replies are published to
  the message's reply-to subject.

This project models the generator's one source file, `src/lib.rs`, and
proves properties of that model. The model has these modules:

- `Naming`: method names become Rust function names and subject suffixes.
- `Classifier`: the `subscribe` name convention decides which methods get
  code. The method filter keeps exactly those methods, in order.
- `Subjects`: trimming the prefix, composing a subject, and stripping the
  prefix again on the server side.
- `Bindings`: the per-method record every template is filled from.
- `Dispatcher`: the generated dispatch loop.
  - `Run` is its specification as a function.
  - `StartServer` (with `ServeNext`, one turn of it) is the imperative loop,
    proved equal to `Run`.
  - `DispatchMessage` handles one message and is proved equal to
    `HandleMessage`.
  - `PublishStream` is the inner streaming loop and is proved equal to
    `PublishReplies`.
- `Client`: the generated client calls, and lemmas showing that a client
  and a server on the same bus agree end to end.
- `Generator`: the `generate` / `finalize` entry points, as updates of the
  output buffer.

Some things are parameters of the model:

- The bus is a finite sequence of inbound messages and a log of events.
- Whether the bus accepts the n-th publish is the oracle `publishOk(n)`.
- The protobuf codec and the user's handlers are functions.
- The literal Rust text of the templates is a `Templates` value.

## Model

| member | source | states |
|---|---|---|
| Naming.ConvertMethodToFunction | src/lib.rs:394-397 | the function name has no upper-case letter and is at least as long as the method name |
| Naming.ConvertMethodToSubject | src/lib.rs:399-403 | the subject suffix is as long as the function name and contains no `_`; it has a `.` exactly where the function name has `_` or `.` |
| Naming.ConvertIdempotent | src/lib.rs:395-397 | converting a function name a second time changes nothing |
| Naming.PascalToFunction | src/lib.rs:395-397 | a PascalCase name made of words of two or more letters becomes those words, lower-case, joined by single `_` |
| Naming.SnakeToFunction | src/lib.rs:395-397 | a name that is already snake case is its own function name |
| Naming.SubjectOfWords | src/lib.rs:401-403 | the snake-case spelling of any lower-case words, and their PascalCase spelling when every word has two or more letters, both give the words joined by single `.` |
| Naming.SubjectBackToFunction | src/lib.rs:401-403 | for a snake-case or PascalCase name, turning the `.` of its subject suffix back into `_` gives its function name: no information is lost |
| Naming.SubjectShape | src/lib.rs:401-403 | the subject suffix of a snake-case or PascalCase name has no `_`, does not start or end with `.`, has one `.` fewer than the name has words, and is as long as the function name |
| Naming.StartComponentExample | src/lib.rs:410-427 | `StartComponent` gives `start_component` and `start.component` |
| Naming.StartProviderExample | src/lib.rs:415-428 | `StartProvider` gives `start_provider` and `start.provider` |
| Naming.PutConfigExample | src/lib.rs:419-429 | `PutConfig` gives `put_config` and `put.config` |
| Classifier.GetMethodType | src/lib.rs:369-392 | a method is publish / subscribe if and only if its name begins with the nine characters `subscribe`, compared case-sensitively |
| Classifier.FilterMethodsByType | src/lib.rs:41-53 | the result is no longer than the input; a method is in it if and only if it is in the input and has the desired type |
| Classifier.FilterIsSubsequence | src/lib.rs:41-53 | the filter keeps the relative order of the methods it keeps |
| Classifier.FilterMultiplicity | src/lib.rs:41-53 | counted with repetitions, the result holds every copy of each method of the desired type and no copy of any other |
| Classifier.FilterIdempotent | src/lib.rs:41-53 | filtering the result again by the same type changes nothing |
| Classifier.FilterAppend | src/lib.rs:41-53 | filtering a concatenation is concatenating the filtered parts |
| Classifier.FilterPartition | src/lib.rs:363-367 | every method is kept by exactly one of the two method types |
| Classifier.CapitalSubscribeIsRequestResponse | src/lib.rs:386-391 | a name beginning with a capital `S` is request / response: the test is case-sensitive |
| Classifier.PascalNameIsRequestResponse | src/lib.rs:386-391 | a PascalCase name is never publish / subscribe |
| Classifier.SnakeSubscribeIsPubSub | src/lib.rs:386-391 | a snake-case name whose first word is `subscribe` is publish / subscribe |
| Subjects.TrimEnd | src/lib.rs:342 | the trimmed prefix is a prefix of the original and does not end with the character; everything cut off is that character |
| Subjects.StripPrefix | src/lib.rs:349 | the result is present if and only if the prefix is a prefix of the subject, and then the subject is the prefix followed by the result |
| Subjects.ClientSubject | src/lib.rs:146 | the subject is the trimmed prefix, then one `.`, then the suffix, at exactly those positions |
| Subjects.TrimEndUnique | src/lib.rs:342 | the three properties of `TrimEnd` determine its result |
| Subjects.TrimEndIdempotent | src/lib.rs:342 | trimming a trimmed prefix changes nothing |
| Subjects.TrimEndPad | src/lib.rs:342 | a prefix with any number of trailing `.` trims to the same string |
| Subjects.OneDelimiterAtJoin | src/lib.rs:146 | exactly one `.` separates prefix and suffix, whatever the prefix ended with, when the suffix does not start with `.` |
| Subjects.ClientSubjectPad | src/lib.rs:167 | trailing `.` on the prefix do not change the subject a call is sent to |
| Subjects.ClientSubjectSuffixInjective | src/lib.rs:167 | under one prefix, two suffixes give the same subject if and only if they are equal |
| Subjects.ClientSubjectInjective | src/lib.rs:146 | two prefixes give the same subject for a suffix if and only if they trim to the same string |
| Subjects.ServerAccepts | src/lib.rs:349-350 | the generated server's test for one arm: strip the trimmed prefix from the subject and compare what is left with `.` followed by the method's subject suffix (its meaning is stated by `ServerAcceptsIff`) |
| Subjects.ServerAcceptsIff | src/lib.rs:342-350 | the server's strip-then-compare test accepts a subject if and only if it is the subject the client composes under the same prefix |
| Subjects.ClientServerAgree | src/lib.rs:342-349 | a server accepts a client's subject for a method if and only if their prefixes trim to the same string |
| Subjects.DefaultPrefixExample | src/lib.rs:252-254 | the default prefix, with or without a trailing `.`, addresses `nats.proto.get.person` |
| Bindings.BindingFor | src/lib.rs:269-272 | a method's binding carries its converted function name and subject suffix, its input and output types, and its streaming flag |
| Bindings.ServiceBindings | src/lib.rs:266-272 | the i-th binding is the binding of the i-th request / response method, in declaration order, and there are no others |
| Bindings.BindingsAreForCalls | src/lib.rs:266-272 | a binding is generated if and only if it is the binding of a request / response method of the service |
| Bindings.NoBindingsForNotifications | src/lib.rs:123 | in a service whose methods are all publish / subscribe, no method gets a client function, a handler or a match arm |
| Bindings.BindingSubjectShape | src/lib.rs:270 | the subject suffix of a snake-case or PascalCase method name is its words joined by `.`, is non-empty and does not start with `.` |
| Dispatcher.Route | src/lib.rs:349-353 | the arm an inbound subject is dispatched to: the first arm whose pattern matches the stripped subject, or none for the `_` arm (its meaning is stated by `RouteFound`, `RouteFirst` and `RouteNone`) |
| Dispatcher.RouteFound | src/lib.rs:349-350 | a message is dispatched to an arm only if its subject is the subject a client composes for that arm's method, and no earlier arm has that subject |
| Dispatcher.RouteFirst | src/lib.rs:349-350 | the composed subject of a method reaches the first arm with that subject |
| Dispatcher.RouteNone | src/lib.rs:349-353 | a subject falls through to the unknown-subject arm if and only if no method's composed subject equals it |
| Dispatcher.FirstMatchWins | src/lib.rs:349-350 | of two methods with the same subject suffix, the later one is never dispatched to |
| Dispatcher.PublishReplies | src/lib.rs:284-294 | the inner streaming loop as a function: publish each reply to the reply-to subject in order and stop at the first refused publish (stated by `PublishRepliesAll` and `PublishRepliesRefused`) |
| Dispatcher.PublishStream | src/lib.rs:284-294 | the inner loop's log and result are those of `PublishReplies`; every event it logs is a publish |
| Dispatcher.HandleMessage | src/lib.rs:276-325 | one message as a function: route it, then decode, call the handler, check the reply-to subject and publish, or report the unknown subject (stated by `UnaryReply`, `StreamingReplies`, `RoutedFailureStops` and `UnknownSubjectContinues`) |
| Dispatcher.DispatchMessage | src/lib.rs:276-325 | handling one message produces exactly the log and result of `HandleMessage`, which is the match on the stripped subject followed by decode, handler call, reply-to check and publish |
| Dispatcher.ServeNext | src/lib.rs:348-356 | one turn of the loop either ends the run with the failed message's log and result, or extends the log so that the rest of the run is `Run` over the remaining messages, with the publish count carried along |
| Dispatcher.Run | src/lib.rs:348-356 | the outer loop as a function: handle the messages in order and stop at the first failure (stated by `LoopStopsAtFailure`, `LoopFailsAt` and `RunOnlyUnknown`) |
| Dispatcher.StartServer | src/lib.rs:347-357 | the loop's log and result are those of `Run` over the inbound messages, with the arms built from the service's bindings |
| Dispatcher.UnknownSubjectContinues | src/lib.rs:351-353 | a message on an unknown subject yields one diagnostic and publishes nothing, and the loop goes on with the next message |
| Dispatcher.RunOnlyUnknown | src/lib.rs:348-356 | a run over messages none of which is routed reports every subject in order and returns `Ok` |
| Dispatcher.UnaryReply | src/lib.rs:304-323 | a request / response arm publishes exactly one encoded reply when there is a reply-to subject and the bus accepts it; without a reply-to subject it publishes nothing and reports it; a refused publish fails the loop |
| Dispatcher.PublishRepliesAll | src/lib.rs:284-294 | when the bus accepts every publish, all replies of a stream are published to the reply-to subject in the handler's order |
| Dispatcher.PublishRepliesRefused | src/lib.rs:290-293 | when the bus refuses the j-th publish, the first j replies are published in order and the loop fails |
| Dispatcher.StreamingReplies | src/lib.rs:276-298 | a server-streaming arm publishes its replies in order to the reply-to subject, and without a reply-to subject publishes nothing and reports it |
| Dispatcher.RoutedFailureStops | src/lib.rs:277-282 | a payload that does not decode, or a handler that fails, ends the loop with that error, with nothing published and no later message looked at |
| Dispatcher.LoopStopsAtFailure | src/lib.rs:348-356 | once the loop has failed, later messages change neither its log nor its result |
| Dispatcher.LoopFailsAt | src/lib.rs:348-356 | a failed run failed on one message: the messages before it all completed without error and the run over the messages up to it is the whole run |
| Dispatcher.PublishesGoToReplySubjects | src/lib.rs:284-317 | every reply the loop publishes goes to the reply-to subject of an inbound message that was routed to a method |
| Client.RequestFor | src/lib.rs:166-167 | a call is sent to the subject composed from the client's prefix and the method's suffix, with the inbox as reply-to subject |
| Client.UnaryCall | src/lib.rs:166-171 | a failed request gives the request error; a reply that does not decode gives the decode error; otherwise the result is the decoded reply |
| Client.StreamCall | src/lib.rs:143-151 | a failed subscribe or publish gives an error; otherwise the result is the decoded stream of what the inbox receives |
| Client.StreamItems | src/lib.rs:149 | the `filter_map` over received payloads: the stream is never longer than what was received (its content is stated by `StreamItemsAllDecode`, `StreamItemsAppend` and `StreamItemsDropsFailures`) |
| Client.StreamItemsAllDecode | src/lib.rs:149 | when every received payload decodes, the stream holds every decoded value in arrival order |
| Client.StreamItemsAppend | src/lib.rs:148-149 | the stream of two runs of payloads is the stream of the first followed by the stream of the second |
| Client.StreamItemsDropsFailures | src/lib.rs:148-149 | a payload that does not decode is silently left out of the stream wherever it arrives; the items before and after it stay, in order |
| Client.CallIsRouted | src/lib.rs:146 | when client and server prefixes trim alike, a call reaches the arm generated for its method unless an earlier method shares its subject |
| Client.UnaryEndToEnd | src/lib.rs:158-171 | a request / response call answered by a succeeding handler leads to exactly one publish, to the call's inbox, which the client decodes to the handler's response |
| Client.StreamingEndToEnd | src/lib.rs:135-151 | a streaming call answered by a succeeding handler delivers one payload per reply, in order, to the inbox, and the client's stream is exactly the handler's replies |
| Generator.ServiceCode | src/lib.rs:7-23 | the code for a service is the lines of the format string in order: the client heading, the client trait, the client implementation, the server heading, the server trait and the dispatch loop, each behind a line break and the literal's indentation, with the four pieces filled from the same bindings |
| Generator.Buffer.Generate | src/lib.rs:7-25 | the service's code is appended to the buffer and what was there stays |
| Generator.Buffer.Finalize | src/lib.rs:27-38 | the imports block is inserted at offset 0 and the previous contents follow unchanged |
| Generator.NotificationsDoNotChangeCode | src/lib.rs:6-25 | appending publish / subscribe methods to a service does not change the code generated for it |
| Generator.OnlyCallsShapeCode | src/lib.rs:59-60 | wherever publish / subscribe methods are declared, a service's code is the code of its request / response methods alone |

## Left out

- `convert_case` is an external crate. `SnakeCase` lower-cases letters and puts `_` before every capital that is not the first character. Conversion is proved only for names made of lower-case words: PascalCase names whose words have at least two letters, and snake-case names. The crate's handling of acronyms, digits, single-letter words and other separators is not modelled.
- The templates' literal Rust text (doc comments, signatures, `#[allow(dead_code)]`, generic bounds) is the `Templates` parameter. What is modelled is which bindings each template receives, the `format!` text of `generate` around them, and where the text goes in the buffer.
- `Binding` does not carry a method's `proto_name` or its `client_streaming` flag. The server-trait template reads both (src/lib.rs:221-226), for the handler's doc comment and its input type. The model does not capture how they change that text.
- The `subject_prefix` methods of the client-prefix and server traits are modelled as a prefix string the caller supplies. Their default is the constant `DefaultSubjectPrefix`.
- The `auto_subject_prefix` feature (src/lib.rs:179-183) only adds an empty trait implementation to the text, so it is not modelled.
- The wildcard subscription `<prefix>.>` and its error (src/lib.rs:343-346) are not modelled. The loop receives a sequence of messages, and subjects outside the prefix fall through to the unknown-subject arm.
- NATS I/O and the async runtime are not modelled. Publishing is the oracle `publishOk`, a unary request's outcome is an optional reply, and a subscription is a finite sequence. Streams that never end and the cancellation of the loop are outside the model.
- The protobuf codec is a pair of functions the caller supplies. Encoding is total, as the generated code treats it (`expect` on encode).
- `Client.UnaryCall`, `Client.StreamCall`: the client cannot fail to encode a request, because the buffer is sized by `encoded_len`, so the "failed to encode" error is not modelled.
- Client-side streaming (`client_streaming`) is not modelled. The source leaves it as a TODO and generates only a different handler signature for it.
- The error messages are kept as the failure's kind and its context field (input type, function name or output type), not as text. The `eprintln!` diagnostics are events in the log.
- The commented-out option-based classifier (src/lib.rs:370-382) is not modelled because it is dead code.
- The example applications and the build script of the repository are not part of this model.
