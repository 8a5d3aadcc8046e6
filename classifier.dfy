/** Which methods of a service get bindings (src/lib.rs:41-53, 363-392).

    A method whose name starts with `subscribe` is meant to be publish /
    subscribe; every other method is request / response. Only the
    request / response methods receive client and server code. */
module Classifier {
  import opened Naming

  /** A method of a service as the IDL front end describes it. `name` is the
      method's identifier; the type names are opaque references. */
  datatype Method = Method(
    name: string,
    inputType: string,
    outputType: string,
    clientStreaming: bool,
    serverStreaming: bool)

  /** A service: a name and its methods in declaration order. */
  datatype Service = Service(name: string, methods: seq<Method>)

  /** `MethodType`: the messaging pattern a method is given. */
  datatype MethodType = PubSub | RequestResponse

  const SubscribePrefix: string := "subscribe"

  /** `get_method_type`: a case-sensitive test of the raw name for the
      prefix `subscribe`. */
  function GetMethodType(m: Method): (t: MethodType)
    ensures t == PubSub <==>
      |m.name| >= 9 && forall i :: 0 <= i < 9 ==> m.name[i] == SubscribePrefix[i]
  {
    if SubscribePrefix <= m.name then PubSub else RequestResponse
  }

  /** `filter_methods_by_type`: the methods of type `desired`, in order. */
  function FilterMethodsByType(methods: seq<Method>, desired: MethodType): (r: seq<Method>)
    ensures |r| <= |methods|
    ensures forall m :: m in r <==> m in methods && GetMethodType(m) == desired
  {
    if methods == [] then []
    else
      (if GetMethodType(methods[0]) == desired then [methods[0]] else [])
      + FilterMethodsByType(methods[1..], desired)
  }

  /** `xs` is `ys` with some elements left out and the rest in their order. */
  predicate IsSubsequence<T(==)>(xs: seq<T>, ys: seq<T>)
  {
    if xs == [] then true
    else if ys == [] then false
    else if xs[0] == ys[0] then IsSubsequence(xs[1..], ys[1..])
    else IsSubsequence(xs, ys[1..])
  }

  // ---------------------------------------------------------------------
  // Properties of the filter
  // ---------------------------------------------------------------------

  lemma {:induction false} SubsequenceOfTail<T>(xs: seq<T>, ys: seq<T>)
    requires ys != [] && IsSubsequence(xs, ys[1..])
    ensures IsSubsequence(xs, ys)
  {
    if xs != [] && xs[0] == ys[0] {
      SubsequenceDropHead(xs, ys[1..]);
    }
  }

  lemma {:induction false} SubsequenceDropHead<T>(xs: seq<T>, ys: seq<T>)
    requires xs != [] && IsSubsequence(xs, ys)
    ensures IsSubsequence(xs[1..], ys)
  {
    if xs[0] == ys[0] {
      if xs[1..] != [] {
        SubsequenceOfTail(xs[1..], ys);
      }
    } else {
      SubsequenceDropHead(xs, ys[1..]);
      if xs[1..] != [] {
        SubsequenceOfTail(xs[1..], ys);
      }
    }
  }

  /** The filter keeps the order of the methods it keeps. */
  lemma {:induction false} FilterIsSubsequence(methods: seq<Method>, desired: MethodType)
    ensures IsSubsequence(FilterMethodsByType(methods, desired), methods)
  {
    if methods != [] {
      var rest := FilterMethodsByType(methods[1..], desired);
      FilterIsSubsequence(methods[1..], desired);
      if GetMethodType(methods[0]) == desired {
        assert FilterMethodsByType(methods, desired) == [methods[0]] + rest;
        assert ([methods[0]] + rest)[1..] == rest;
      } else {
        assert FilterMethodsByType(methods, desired) == rest;
        SubsequenceOfTail(rest, methods);
      }
    }
  }

  /** The filter keeps every copy of a method of the desired type and no
      copy of any other: counted with multiplicity, it is exactly the
      methods of that type. */
  lemma {:induction false} FilterMultiplicity(methods: seq<Method>, desired: MethodType, m: Method)
    ensures multiset(FilterMethodsByType(methods, desired))[m]
         == if GetMethodType(m) == desired then multiset(methods)[m] else 0
  {
    if methods != [] {
      var x, xs := methods[0], methods[1..];
      var head := if GetMethodType(x) == desired then [x] else [];
      var rest := FilterMethodsByType(xs, desired);
      FilterMultiplicity(xs, desired, m);
      FilterCons(x, xs, desired);
      assert methods == [x] + xs;
      assert multiset(FilterMethodsByType(methods, desired)) == multiset(head) + multiset(rest);
      assert multiset(methods) == multiset([x]) + multiset(xs);
    }
  }

  lemma FilterCons(x: Method, xs: seq<Method>, desired: MethodType)
    ensures FilterMethodsByType([x] + xs, desired)
         == (if GetMethodType(x) == desired then [x] else []) + FilterMethodsByType(xs, desired)
  {
    assert ([x] + xs)[0] == x && ([x] + xs)[1..] == xs;
  }

  /** Filtering a second time by the same type changes nothing. */
  lemma {:induction false} FilterIdempotent(methods: seq<Method>, desired: MethodType)
    ensures FilterMethodsByType(FilterMethodsByType(methods, desired), desired)
         == FilterMethodsByType(methods, desired)
  {
    if methods != [] {
      var x, rest := methods[0], FilterMethodsByType(methods[1..], desired);
      FilterIdempotent(methods[1..], desired);
      if GetMethodType(x) == desired {
        calc {
          FilterMethodsByType(FilterMethodsByType(methods, desired), desired);
          FilterMethodsByType([x] + rest, desired);
          { FilterCons(x, rest, desired); }
          [x] + FilterMethodsByType(rest, desired);
          [x] + rest;
          FilterMethodsByType(methods, desired);
        }
      } else {
        assert FilterMethodsByType(methods, desired) == [] + rest == rest;
      }
    }
  }

  /** Filtering distributes over concatenation. */
  lemma {:induction false} FilterAppend(xs: seq<Method>, ys: seq<Method>, desired: MethodType)
    ensures FilterMethodsByType(xs + ys, desired)
         == FilterMethodsByType(xs, desired) + FilterMethodsByType(ys, desired)
  {
    if xs == [] {
      assert xs + ys == ys;
    } else {
      var head := if GetMethodType(xs[0]) == desired then [xs[0]] else [];
      calc {
        FilterMethodsByType(xs + ys, desired);
        { assert xs + ys == [xs[0]] + (xs[1..] + ys); FilterCons(xs[0], xs[1..] + ys, desired); }
        head + FilterMethodsByType(xs[1..] + ys, desired);
        { FilterAppend(xs[1..], ys, desired); }
        head + (FilterMethodsByType(xs[1..], desired) + FilterMethodsByType(ys, desired));
        (head + FilterMethodsByType(xs[1..], desired)) + FilterMethodsByType(ys, desired);
        FilterMethodsByType(xs, desired) + FilterMethodsByType(ys, desired);
      }
    }
  }

  /** Every method falls under exactly one of the two filters. */
  lemma {:induction false} FilterPartition(methods: seq<Method>)
    ensures |FilterMethodsByType(methods, PubSub)|
          + |FilterMethodsByType(methods, RequestResponse)| == |methods|
  {
    if methods != [] {
      FilterPartition(methods[1..]);
    }
  }

  // ---------------------------------------------------------------------
  // The classifier and the names it sees
  // ---------------------------------------------------------------------

  /** The test is case-sensitive: a name spelt `Subscribe...` is
      request / response. */
  lemma CapitalSubscribeIsRequestResponse(m: Method)
    requires |m.name| > 0 && m.name[0] == 'S'
    ensures GetMethodType(m) == RequestResponse
  {
  }

  /** A PascalCase name never starts with the lower-case prefix, so a method
      named in that form is always request / response. */
  lemma PascalNameIsRequestResponse(ws: seq<string>, m: Method)
    requires ValidWords(ws) && m.name == PascalOf(ws)
    ensures GetMethodType(m) == RequestResponse
  {
    assert m.name == Capitalize(ws[0]) + PascalOf(ws[1..]);
    assert IsUpper(m.name[0]);
  }

  /** A snake-case name whose first word is `subscribe` is publish /
      subscribe: the convention applies to names in that form. */
  lemma {:induction false} SnakeSubscribeIsPubSub(ws: seq<string>, m: Method)
    requires ValidWords(ws) && ws[0] == SubscribePrefix && m.name == Join(ws, '_')
    ensures GetMethodType(m) == PubSub
  {
    if |ws| > 1 {
      assert m.name == SubscribePrefix + (['_'] + Join(ws[1..], '_'));
    }
  }
}
