/** The generator's two entry points as the IDL compiler drives them
    (src/lib.rs:6-38): `generate` is called once per service and appends
    that service's code to the output buffer; `finalize` is called once at
    the end and inserts the shared `use` block at the front of the buffer.

    The four pieces of code for a service (client trait, client
    implementation, server trait, server dispatch loop) are text templates
    filled with the service name and its bindings; the templates are the
    `Templates` parameter, so what is modelled is which bindings each piece
    receives and where the text goes in the buffer. */
module Generator {
  import opened Classifier
  import opened Bindings

  /** One text template per piece of generated code, each given the service
      name and the bindings of its request / response methods. */
  datatype Templates = Templates(
    clientTrait: (string, seq<Binding>) -> string,
    clientImpl: (string, seq<Binding>) -> string,
    serverTrait: (string, seq<Binding>) -> string,
    serverImpl: (string, seq<Binding>) -> string)

  /** The block `finalize` puts in front of all generated code. */
  const ImportsHeader: string :=
    "\n"
    + "/// --------------------------------------------------------------\n"
    + "/// This file was generated by the `protobuf-nats-service-generator` crate\n"
    + "/// DO NOT MODIFY DIRECTLY\n"
    + "/// --------------------------------------------------------------\n"
    + "use ::anyhow::Context as _;\n"
    + "use ::futures::StreamExt;\n"
    + "use ::prost::Message;\n"

  /** What precedes each line of the `generate` format string, and ends it:
      a line break and the twelve spaces of the literal's indentation. */
  const LineBreak: string := "\n            "

  const ClientHeading: string := "// Client handlers"
  const ServerHeading: string := "// Server handlers"

  /** The lines of the `generate` format string, each behind a
      `LineBreak`, with one more `LineBreak` at the end. */
  function Framed(lines: seq<string>): (r: string)
    ensures |r| >= |LineBreak|
    ensures r[..|LineBreak|] == LineBreak
  {
    if lines == [] then LineBreak else LineBreak + lines[0] + Framed(lines[1..])
  }

  /** The code `generate` emits for one service: the client heading, the
      client trait, the client implementation, the server heading, the
      server trait and the dispatch loop, one per line of the format string,
      all four pieces built from the same bindings. */
  function ServiceCode(service: Service, templates: Templates): (code: string)
    ensures var bs := ServiceBindings(service.methods);
      code == LineBreak + ClientHeading
            + (LineBreak + templates.clientTrait(service.name, bs)
            + (LineBreak + templates.clientImpl(service.name, bs)
            + (LineBreak + ServerHeading
            + (LineBreak + templates.serverTrait(service.name, bs)
            + (LineBreak + templates.serverImpl(service.name, bs)
            + LineBreak)))))
  {
    var bs := ServiceBindings(service.methods);
    var ct, ci := templates.clientTrait(service.name, bs), templates.clientImpl(service.name, bs);
    var st, si := templates.serverTrait(service.name, bs), templates.serverImpl(service.name, bs);
    FramedSix(ClientHeading, ct, ci, ServerHeading, st, si);
    Framed([ClientHeading, ct, ci, ServerHeading, st, si])
  }

  /** `Framed` written out for six lines. */
  lemma FramedSix(a: string, b: string, c: string, d: string, e: string, f: string)
    ensures Framed([a, b, c, d, e, f])
         == LineBreak + a + (LineBreak + b + (LineBreak + c + (LineBreak + d
          + (LineBreak + e + (LineBreak + f + LineBreak)))))
  {
    assert [f][1..] == [] && Framed([]) == LineBreak;
    var tf := Framed([f]);
    assert tf == LineBreak + f + LineBreak;
    assert [e, f][1..] == [f];
    var te := Framed([e, f]);
    assert te == LineBreak + e + tf;
    assert [d, e, f][1..] == [e, f];
    var td := Framed([d, e, f]);
    assert td == LineBreak + d + te;
    assert [c, d, e, f][1..] == [d, e, f];
    var tc := Framed([c, d, e, f]);
    assert tc == LineBreak + c + td;
    assert [b, c, d, e, f][1..] == [c, d, e, f];
    var tb := Framed([b, c, d, e, f]);
    assert tb == LineBreak + b + tc;
    assert [a, b, c, d, e, f][1..] == [b, c, d, e, f];
  }

  /** The output buffer the compiler hands to both entry points. */
  class Buffer {
    var text: string

    constructor (initial: string)
      ensures text == initial
    {
      text := initial;
    }

    /** `generate`: append the service's code; what was there stays. */
    method Generate(service: Service, templates: Templates)
      modifies this
      ensures text == old(text) + ServiceCode(service, templates)
      ensures old(text) <= text
    {
      text := text + ServiceCode(service, templates);
    }

    /** `finalize`: insert the imports block at offset 0; what was there
        follows it unchanged. */
    method Finalize()
      modifies this
      ensures text == ImportsHeader + old(text)
      ensures text[|ImportsHeader|..] == old(text)
    {
      text := ImportsHeader + text;
    }
  }

  /** Two services whose request / response methods coincide (in the same
      order) get code built from the same bindings, whatever
      publish / subscribe methods each also declares. */
  lemma {:induction false} NotificationsDoNotChangeCode(name: string, methods: seq<Method>,
                                                       notifications: seq<Method>, templates: Templates)
    requires forall m :: m in notifications ==> GetMethodType(m) == PubSub
    ensures ServiceCode(Service(name, methods + notifications), templates)
         == ServiceCode(Service(name, methods), templates)
  {
    FilterAppend(methods, notifications, RequestResponse);
    FilterNone(notifications, RequestResponse);
    assert FilterMethodsByType(methods + notifications, RequestResponse)
        == FilterMethodsByType(methods, RequestResponse);
  }

  /** Publish / subscribe methods change nothing wherever they are declared:
      a service's code is the code of its request / response methods alone. */
  lemma OnlyCallsShapeCode(name: string, methods: seq<Method>, templates: Templates)
    ensures ServiceCode(Service(name, methods), templates)
         == ServiceCode(Service(name, FilterMethodsByType(methods, RequestResponse)), templates)
  {
    FilterIdempotent(methods, RequestResponse);
  }

  lemma {:induction false} FilterNone(xs: seq<Method>, desired: MethodType)
    requires forall m :: m in xs ==> GetMethodType(m) != desired
    ensures FilterMethodsByType(xs, desired) == []
  {
    if xs != [] {
      assert xs[0] in xs;
      FilterNone(xs[1..], desired);
    }
  }
}
