/** Subjects on the wire (src/lib.rs:146, 167, 342-349).

    A client addresses method `m` at `trim_end_matches(prefix, '.') + "." +
    suffix(m)`. The server trims its own prefix the same way, strips it from
    the subject of each incoming message with `strip_prefix`, and compares
    what is left with `"." + suffix(m)`. */
module Subjects {
  import opened Options

  const Delimiter: char := '.'

  /** The prefix both generated `subject_prefix` methods return unless the
      user overrides them. */
  const DefaultSubjectPrefix: string := "nats.proto"

  /** `trim_end_matches(c)`: `s` without its trailing run of `c`. */
  function TrimEnd(s: string, c: char): (r: string)
    ensures r <= s
    ensures r == [] || r[|r| - 1] != c
    ensures forall i :: |r| <= i < |s| ==> s[i] == c
  {
    if s != [] && s[|s| - 1] == c then TrimEnd(s[..|s| - 1], c) else s
  }

  /** `str::strip_prefix`: what follows `p` in `s`, if `s` starts with `p`. */
  function StripPrefix(s: string, p: string): (r: Option<string>)
    ensures r.Some? <==> p <= s
    ensures r.Some? ==> s == p + r.value
  {
    if p <= s then Some(s[|p|..]) else None
  }

  /** The subject a client sends a call of the method with subject suffix
      `suffix` to, under subject prefix `prefix`. */
  function ClientSubject(prefix: string, suffix: string): (r: string)
    ensures |r| == |TrimEnd(prefix, Delimiter)| + 1 + |suffix|
    ensures r[..|TrimEnd(prefix, Delimiter)|] == TrimEnd(prefix, Delimiter)
    ensures r[|TrimEnd(prefix, Delimiter)|] == Delimiter
    ensures r[|TrimEnd(prefix, Delimiter)| + 1..] == suffix
  {
    TrimEnd(prefix, Delimiter) + [Delimiter] + suffix
  }

  /** The test the generated server applies to an incoming subject for the
      method with subject suffix `suffix`: strip the trimmed prefix and
      compare the rest with the suffix behind one delimiter. */
  predicate ServerAccepts(prefix: string, subject: string, suffix: string)
  {
    StripPrefix(subject, TrimEnd(prefix, Delimiter)) == Some([Delimiter] + suffix)
  }

  /** `s` followed by `n` copies of `c`. */
  function Pad(s: string, c: char, n: nat): (r: string)
    ensures |r| == |s| + n
    ensures r[..|s|] == s
    ensures forall i :: |s| <= i < |r| ==> r[i] == c
  {
    if n == 0 then s else Pad(s, c, n - 1) + [c]
  }

  // ---------------------------------------------------------------------
  // Trimming
  // ---------------------------------------------------------------------

  /** The three properties in `TrimEnd`'s contract pin its result down. */
  lemma TrimEndUnique(s: string, c: char, r: string)
    requires r <= s
    requires r == [] || r[|r| - 1] != c
    requires forall i :: |r| <= i < |s| ==> s[i] == c
    ensures r == TrimEnd(s, c)
  {
  }

  /** Trimming twice trims nothing more. */
  lemma TrimEndIdempotent(s: string, c: char)
    ensures TrimEnd(TrimEnd(s, c), c) == TrimEnd(s, c)
  {
    TrimEndUnique(TrimEnd(s, c), c, TrimEnd(s, c));
  }

  /** However many delimiters a prefix ends with, it trims to the same
      thing. */
  lemma TrimEndPad(s: string, c: char, n: nat)
    ensures TrimEnd(Pad(s, c, n), c) == TrimEnd(s, c)
  {
    var p, t := Pad(s, c, n), TrimEnd(s, c);
    assert t <= s && s <= p;
    TrimEndUnique(p, c, t);
  }

  // ---------------------------------------------------------------------
  // Composition
  // ---------------------------------------------------------------------

  /** Exactly one delimiter separates prefix and suffix, whatever number of
      delimiters the prefix ended with, as long as the suffix does not start
      with one (method subject suffixes never do). */
  lemma OneDelimiterAtJoin(prefix: string, suffix: string)
    requires suffix == [] || suffix[0] != Delimiter
    ensures var t, r := TrimEnd(prefix, Delimiter), ClientSubject(prefix, suffix);
      && r[|t|] == Delimiter
      && (|t| == 0 || r[|t| - 1] != Delimiter)
      && (suffix == [] || r[|t| + 1] != Delimiter)
  {
    var t, r := TrimEnd(prefix, Delimiter), ClientSubject(prefix, suffix);
    if |t| > 0 {
      assert r[|t| - 1] == r[..|t|][|t| - 1] == t[|t| - 1];
    }
    if suffix != [] {
      assert r[|t| + 1] == r[|t| + 1..][0];
    }
  }

  /** Trailing delimiters on the prefix do not change the subject. */
  lemma ClientSubjectPad(prefix: string, n: nat, suffix: string)
    ensures ClientSubject(Pad(prefix, Delimiter, n), suffix) == ClientSubject(prefix, suffix)
  {
    TrimEndPad(prefix, Delimiter, n);
  }

  /** Under one prefix, different subject suffixes give different
      subjects. */
  lemma ClientSubjectSuffixInjective(prefix: string, s1: string, s2: string)
    ensures ClientSubject(prefix, s1) == ClientSubject(prefix, s2) <==> s1 == s2
  {
    var t := TrimEnd(prefix, Delimiter);
    if ClientSubject(prefix, s1) == ClientSubject(prefix, s2) {
      assert s1 == ClientSubject(prefix, s1)[|t| + 1..];
    }
  }

  /** Two prefixes address a method at the same subject exactly when they
      trim to the same string. */
  lemma ClientSubjectInjective(p1: string, p2: string, suffix: string)
    ensures ClientSubject(p1, suffix) == ClientSubject(p2, suffix)
        <==> TrimEnd(p1, Delimiter) == TrimEnd(p2, Delimiter)
  {
    var t1, t2 := TrimEnd(p1, Delimiter), TrimEnd(p2, Delimiter);
    if ClientSubject(p1, suffix) == ClientSubject(p2, suffix) {
      assert |t1| == |t2|;
      assert t1 == ClientSubject(p1, suffix)[..|t1|];
    }
  }

  // ---------------------------------------------------------------------
  // Agreement between client and server
  // ---------------------------------------------------------------------

  /** The server's strip-and-compare test accepts exactly the subject the
      client composes, under the same prefix. */
  lemma ServerAcceptsIff(prefix: string, subject: string, suffix: string)
    ensures ServerAccepts(prefix, subject, suffix) <==> subject == ClientSubject(prefix, suffix)
  {
    var t := TrimEnd(prefix, Delimiter);
    if subject == ClientSubject(prefix, suffix) {
      assert t <= subject;
      assert subject[|t|..] == [Delimiter] + suffix;
    }
  }

  /** A client and a server agree on a method's subject exactly when their
      prefixes trim to the same string, so `nats.proto` and `nats.proto.`
      interoperate and `nats.proto` and `my.prefix` do not. */
  lemma ClientServerAgree(clientPrefix: string, serverPrefix: string, suffix: string)
    ensures ServerAccepts(serverPrefix, ClientSubject(clientPrefix, suffix), suffix)
        <==> TrimEnd(clientPrefix, Delimiter) == TrimEnd(serverPrefix, Delimiter)
  {
    ServerAcceptsIff(serverPrefix, ClientSubject(clientPrefix, suffix), suffix);
    ClientSubjectInjective(clientPrefix, serverPrefix, suffix);
  }

  /** The default prefix in its two spellings reaches the same subject. */
  lemma DefaultPrefixExample()
    ensures ClientSubject(DefaultSubjectPrefix, "get.person") == "nats.proto.get.person"
    ensures ClientSubject(DefaultSubjectPrefix + ".", "get.person") == "nats.proto.get.person"
  {
    assert TrimEnd(DefaultSubjectPrefix, Delimiter) == "nats.proto";
    assert TrimEnd(DefaultSubjectPrefix + ".", Delimiter) == "nats.proto";
  }
}
