/** What the generator derives from each method it gives code to
    (src/lib.rs:60-64, 123-130, 216-221, 266-272).

    The four `get_*` builders each filter the service's methods down to the
    request / response ones and, for each, compute the function name, the
    subject suffix, the input and output types and the streaming flag, which
    the text templates then spell out. A `Binding` is that per-method record;
    the client functions, the server handler trait and the dispatcher's match
    arms are all generated from the same list. */
module Bindings {
  import opened Naming
  import opened Classifier

  datatype Binding = Binding(
    functionName: string,
    subject: string,
    inputType: string,
    outputType: string,
    serverStreaming: bool)

  function BindingFor(m: Method): (b: Binding)
    ensures b.functionName == ConvertMethodToFunction(m.name)
    ensures b.subject == ConvertMethodToSubject(m.name)
    ensures b.inputType == m.inputType && b.outputType == m.outputType
    ensures b.serverStreaming == m.serverStreaming
  {
    Binding(ConvertMethodToFunction(m.name), ConvertMethodToSubject(m.name),
            m.inputType, m.outputType, m.serverStreaming)
  }

  /** The bindings generated for a service, in declaration order: one per
      request / response method. */
  function ServiceBindings(methods: seq<Method>): (r: seq<Binding>)
    ensures |r| == |FilterMethodsByType(methods, RequestResponse)|
    ensures forall i :: 0 <= i < |r| ==> r[i] == BindingFor(FilterMethodsByType(methods, RequestResponse)[i])
  {
    var calls := FilterMethodsByType(methods, RequestResponse);
    seq(|calls|, i requires 0 <= i < |calls| => BindingFor(calls[i]))
  }

  /** A binding is generated exactly for the request / response methods:
      publish / subscribe methods get no code. */
  lemma BindingsAreForCalls(methods: seq<Method>, b: Binding)
    ensures b in ServiceBindings(methods)
        <==> exists m :: m in methods && GetMethodType(m) == RequestResponse && b == BindingFor(m)
  {
    var calls, bs := FilterMethodsByType(methods, RequestResponse), ServiceBindings(methods);
    if b in bs {
      var i := IndexOf(bs, b);
      assert calls[i] in calls;
    }
    if exists m :: m in methods && GetMethodType(m) == RequestResponse && b == BindingFor(m) {
      var m :| m in methods && GetMethodType(m) == RequestResponse && b == BindingFor(m);
      assert m in calls;
      var i := IndexOf(calls, m);
      assert bs[i] == b;
    }
  }

  /** A position at which `x` occurs in `s`. */
  lemma IndexOf<T>(s: seq<T>, x: T) returns (i: nat)
    requires x in s
    ensures i < |s| && s[i] == x
  {
    i :| 0 <= i < |s| && s[i] == x;
  }

  /** A service whose methods are all publish / subscribe gets no bindings. */
  lemma {:induction false} NoBindingsForNotifications(methods: seq<Method>)
    requires forall m :: m in methods ==> GetMethodType(m) == PubSub
    ensures ServiceBindings(methods) == []
  {
    if methods != [] {
      assert methods[0] in methods;
      NoBindingsForNotifications(methods[1..]);
    }
  }

  /** The subject suffix of a binding generated for a method with a
      PascalCase or snake-case name never starts with the delimiter, so the
      composed subject has one delimiter at the join. */
  lemma BindingSubjectShape(ws: seq<string>, m: Method)
    requires ValidWords(ws)
    requires m.name == Join(ws, '_') || (ValidPascalWords(ws) && m.name == PascalOf(ws))
    ensures BindingFor(m).subject == Join(ws, '.')
    ensures |BindingFor(m).subject| > 0 && BindingFor(m).subject[0] != '.'
  {
    SubjectOfWords(ws);
    JoinShape(ws, '.');
  }
}
