/** Method names to Rust function names and to NATS subject suffixes
    (src/lib.rs:395-403).

    The source delegates the snake-case conversion to the `convert_case`
    crate. `SnakeCase` models it on the identifiers the bindings are fed:
    lower-case every letter and put `_` before every capital that is not the
    first character. That agrees with the crate on names made of capitalised
    words of two or more letters (`StartComponent`) and on names that are
    already snake case (`start_component`); the lemmas below are stated for
    exactly those two forms, through the word list they are made of. */
module Naming {

  predicate IsUpper(c: char) { 'A' <= c <= 'Z' }

  predicate IsLower(c: char) { 'a' <= c <= 'z' }

  /** No upper-case ASCII letter anywhere in `s`. */
  predicate NoUpper(s: string) { forall i :: 0 <= i < |s| ==> !IsUpper(s[i]) }

  function ToLower(c: char): (r: char)
    ensures !IsUpper(r)
    ensures IsUpper(c) ==> IsLower(r)
    ensures !IsUpper(c) ==> r == c
  {
    if IsUpper(c) then (c as int + 32) as char else c
  }

  function ToUpper(c: char): (r: char)
    ensures IsLower(c) ==> IsUpper(r) && ToLower(r) == c
    ensures !IsLower(c) ==> r == c
  {
    if IsLower(c) then (c as int - 32) as char else c
  }

  // ---------------------------------------------------------------------
  // The conversion
  // ---------------------------------------------------------------------

  /** Snake-case conversion of `s`, where `atStart` says whether `s` begins
      the identifier (a leading capital gets no `_`). */
  function SnakeFrom(s: string, atStart: bool): (r: string)
    ensures NoUpper(r)
    ensures |r| >= |s|
  {
    if s == [] then []
    else
      (if IsUpper(s[0]) && !atStart then ['_', ToLower(s[0])] else [ToLower(s[0])])
      + SnakeFrom(s[1..], false)
  }

  function SnakeCase(s: string): string
  {
    SnakeFrom(s, true)
  }

  /** `convert_method_to_function`: the Rust function name of a method. */
  function ConvertMethodToFunction(name: string): (r: string)
    ensures NoUpper(r)
    ensures |r| >= |name|
  {
    SnakeCase(name)
  }

  /** Every occurrence of `from` in `s` replaced by `to`; the `str::replace`
      of a one-character pattern. */
  function ReplaceChar(s: string, from: char, to: char): (r: string)
    ensures |r| == |s|
    ensures forall i :: 0 <= i < |s| && s[i] != from ==> r[i] == s[i]
    ensures forall i :: 0 <= i < |s| && s[i] == from ==> r[i] == to
  {
    seq(|s|, i requires 0 <= i < |s| => if s[i] == from then to else s[i])
  }

  /** `convert_method_to_subject`: the NATS subject suffix of a method, the
      function name with every `_` turned into `.`. */
  function ConvertMethodToSubject(name: string): (r: string)
    ensures |r| == |ConvertMethodToFunction(name)|
    ensures '_' !in r
    ensures forall i :: 0 <= i < |r| ==>
      (r[i] == '.' <==> ConvertMethodToFunction(name)[i] in {'_', '.'})
  {
    ReplaceChar(ConvertMethodToFunction(name), '_', '.')
  }

  // ---------------------------------------------------------------------
  // The identifiers of the model: lists of lower-case words
  // ---------------------------------------------------------------------

  /** A word: one or more lower-case ASCII letters. */
  predicate IsWord(w: string)
  {
    |w| > 0 && forall i :: 0 <= i < |w| ==> IsLower(w[i])
  }

  /** Words an identifier is made of: at least one. */
  predicate ValidWords(ws: seq<string>)
  {
    |ws| > 0 && forall k :: 0 <= k < |ws| ==> IsWord(ws[k])
  }

  /** Words that spell a PascalCase identifier `convert_case` splits at
      each capital: every word has at least two letters (two capitals in a
      row would be read as an acronym). */
  predicate ValidPascalWords(ws: seq<string>)
  {
    ValidWords(ws) && forall k :: 0 <= k < |ws| ==> |ws[k]| >= 2
  }

  function Capitalize(w: string): string
  {
    if w == [] then [] else [ToUpper(w[0])] + w[1..]
  }

  /** The PascalCase identifier made of `ws`: `["put", "config"]` is `PutConfig`. */
  function PascalOf(ws: seq<string>): string
  {
    if ws == [] then [] else Capitalize(ws[0]) + PascalOf(ws[1..])
  }

  /** `ws` joined with one `sep` between neighbours. */
  function Join(ws: seq<string>, sep: char): string
  {
    if ws == [] then []
    else if |ws| == 1 then ws[0]
    else ws[0] + [sep] + Join(ws[1..], sep)
  }

  /** Number of occurrences of `c` in `s`. */
  function Count(s: string, c: char): nat
  {
    if s == [] then 0 else (if s[0] == c then 1 else 0) + Count(s[1..], c)
  }

  // ---------------------------------------------------------------------
  // Lemmas about the conversion
  // ---------------------------------------------------------------------

  lemma {:induction false} SnakeFromNoUpper(s: string, atStart: bool)
    requires NoUpper(s)
    ensures SnakeFrom(s, atStart) == s
  {
    if s != [] {
      SnakeFromNoUpper(s[1..], false);
    }
  }

  /** The conversion works character by character, so it splits over a
      concatenation. */
  lemma {:induction false} SnakeFromAppend(a: string, b: string, atStart: bool)
    ensures SnakeFrom(a + b, atStart) == SnakeFrom(a, atStart) + SnakeFrom(b, atStart && a == [])
  {
    if a != [] {
      var head := if IsUpper(a[0]) && !atStart then ['_', ToLower(a[0])] else [ToLower(a[0])];
      assert (a + b)[0] == a[0];
      assert (a + b)[1..] == a[1..] + b;
      assert SnakeFrom(a + b, atStart) == head + SnakeFrom(a[1..] + b, false);
      SnakeFromAppend(a[1..], b, false);
      assert SnakeFrom(a, atStart) == head + SnakeFrom(a[1..], false);
    } else {
      assert a + b == b;
    }
  }

  /** A snake-case name is already in its final form: converting it again
      changes nothing. */
  lemma ConvertIdempotent(name: string)
    ensures ConvertMethodToFunction(ConvertMethodToFunction(name)) == ConvertMethodToFunction(name)
  {
    SnakeFromNoUpper(ConvertMethodToFunction(name), true);
  }

  lemma {:induction false} JoinNoUpper(ws: seq<string>, sep: char)
    requires forall k :: 0 <= k < |ws| ==> IsWord(ws[k])
    requires !IsUpper(sep)
    ensures NoUpper(Join(ws, sep))
  {
    if |ws| > 1 {
      JoinNoUpper(ws[1..], sep);
    }
  }

  lemma {:induction false} SnakeOfCapitalized(w: string, atStart: bool)
    requires IsWord(w)
    ensures SnakeFrom(Capitalize(w), atStart) == (if atStart then [] else ['_']) + w
  {
    var c, lead: string := Capitalize(w), if atStart then [] else ['_'];
    assert c[0] == ToUpper(w[0]) && IsUpper(c[0]) && c[1..] == w[1..];
    SnakeFromNoUpper(w[1..], false);
    calc {
      SnakeFrom(c, atStart);
      (if !atStart then ['_', ToLower(c[0])] else [ToLower(c[0])]) + SnakeFrom(c[1..], false);
      lead + [w[0]] + w[1..];
      { assert w == [w[0]] + w[1..]; }
      lead + w;
    }
  }

  /** The first word of a PascalCase identifier converts on its own. */
  lemma SnakeFromPascalHead(ws: seq<string>, atStart: bool)
    requires |ws| > 0 && IsWord(ws[0])
    ensures SnakeFrom(PascalOf(ws), atStart)
         == (if atStart then [] else ['_']) + ws[0] + SnakeFrom(PascalOf(ws[1..]), false)
  {
    var first, rest := Capitalize(ws[0]), PascalOf(ws[1..]);
    assert |first| > 0;
    assert PascalOf(ws) == first + rest;
    SnakeFromAppend(first, rest, atStart);
    SnakeOfCapitalized(ws[0], atStart);
  }

  lemma {:induction false} SnakeFromPascal(ws: seq<string>, atStart: bool)
    requires ValidWords(ws)
    ensures SnakeFrom(PascalOf(ws), atStart) == (if atStart then [] else ['_']) + Join(ws, '_')
  {
    var lead: string := if atStart then [] else ['_'];
    SnakeFromPascalHead(ws, atStart);
    if |ws| == 1 {
      assert PascalOf(ws[1..]) == [];
      assert Join(ws, '_') == ws[0];
      assert lead + ws[0] + [] == lead + ws[0];
    } else {
      var tail := Join(ws[1..], '_');
      var x := SnakeFrom(PascalOf(ws[1..]), false);
      assert x == ['_'] + tail by {
        assert ValidWords(ws[1..]) by {
          assert forall k :: 0 <= k < |ws[1..]| ==> ws[1..][k] == ws[k + 1];
        }
        SnakeFromPascal(ws[1..], false);
      }
      calc {
        SnakeFrom(PascalOf(ws), atStart);
        lead + ws[0] + x;
        lead + ws[0] + (['_'] + tail);
        { SeqAssoc(lead, ws[0], ['_'], tail); }
        lead + (ws[0] + ['_'] + tail);
        lead + Join(ws, '_');
      }
    }
  }

  lemma SeqAssoc<T>(a: seq<T>, b: seq<T>, c: seq<T>, d: seq<T>)
    ensures a + b + (c + d) == a + (b + c + d)
  {
  }

  /** On a PascalCase identifier the function name is its words, lower-case,
      joined by single underscores (`StartComponent` to `start_component`). */
  lemma PascalToFunction(ws: seq<string>)
    requires ValidPascalWords(ws)
    ensures ConvertMethodToFunction(PascalOf(ws)) == Join(ws, '_')
  {
    SnakeFromPascal(ws, true);
  }

  /** On an identifier that is already snake case the function name is the
      identifier itself. */
  lemma SnakeToFunction(ws: seq<string>)
    requires ValidWords(ws)
    ensures ConvertMethodToFunction(Join(ws, '_')) == Join(ws, '_')
  {
    JoinNoUpper(ws, '_');
    SnakeFromNoUpper(Join(ws, '_'), true);
  }

  lemma {:induction false} ReplaceInJoin(ws: seq<string>, from: char, to: char)
    requires forall k :: 0 <= k < |ws| ==> IsWord(ws[k])
    requires !IsLower(from)
    ensures ReplaceChar(Join(ws, from), from, to) == Join(ws, to)
  {
    if |ws| > 1 {
      ReplaceInJoin(ws[1..], from, to);
      var a, b := Join(ws, from), Join(ws, to);
      assert a == ws[0] + [from] + Join(ws[1..], from);
      assert b == ws[0] + [to] + Join(ws[1..], to);
      forall i | 0 <= i < |a| ensures ReplaceChar(a, from, to)[i] == b[i] {
        if i < |ws[0]| {
        } else if i == |ws[0]| {
        } else {
          assert a[i] == Join(ws[1..], from)[i - |ws[0]| - 1];
        }
      }
    } else if |ws| == 1 {
      assert Join(ws, from) == ws[0];
    }
  }

  /** A subject suffix is the method's words joined by single dots,
      whichever form the method name arrives in (`PutConfig` and `put_config`
      both give `put.config`). */
  lemma SubjectOfWords(ws: seq<string>)
    requires ValidWords(ws)
    ensures ConvertMethodToSubject(Join(ws, '_')) == Join(ws, '.')
    ensures ValidPascalWords(ws) ==> ConvertMethodToSubject(PascalOf(ws)) == Join(ws, '.')
  {
    SnakeToFunction(ws);
    ReplaceInJoin(ws, '_', '.');
    if ValidPascalWords(ws) {
      PascalToFunction(ws);
    }
  }

  /** Turning the dots of a subject suffix back into underscores gives the
      function name again: the two names carry the same information. */
  lemma SubjectBackToFunction(ws: seq<string>, name: string)
    requires ValidWords(ws)
    requires name == Join(ws, '_') || (ValidPascalWords(ws) && name == PascalOf(ws))
    ensures ReplaceChar(ConvertMethodToSubject(name), '.', '_') == ConvertMethodToFunction(name)
  {
    SubjectOfWords(ws);
    SnakeToFunction(ws);
    if ValidPascalWords(ws) {
      PascalToFunction(ws);
    }
    ReplaceInJoin(ws, '.', '_');
  }

  lemma {:induction false} JoinShape(ws: seq<string>, sep: char)
    requires ValidWords(ws)
    requires !IsLower(sep)
    ensures |Join(ws, sep)| > 0
    ensures Join(ws, sep)[0] != sep
    ensures Join(ws, sep)[|Join(ws, sep)| - 1] != sep
    ensures Count(Join(ws, sep), sep) == |ws| - 1
  {
    var j := Join(ws, sep);
    if |ws| == 1 {
      NoSepCount(ws[0], sep);
    } else {
      JoinShape(ws[1..], sep);
      var t := Join(ws[1..], sep);
      assert j == ws[0] + ([sep] + t);
      CountAppend(ws[0], [sep] + t, sep);
      CountAppend([sep], t, sep);
      NoSepCount(ws[0], sep);
      assert j[|j| - 1] == t[|t| - 1];
    }
  }

  lemma {:induction false} NoSepCount(w: string, sep: char)
    requires IsWord(w)
    requires !IsLower(sep)
    ensures Count(w, sep) == 0
  {
    if |w| > 1 {
      NoSepCount(w[1..], sep);
    }
  }

  lemma {:induction false} CountAppend(a: string, b: string, c: char)
    ensures Count(a + b, c) == Count(a, c) + Count(b, c)
  {
    if a != [] {
      assert (a + b)[0] == a[0];
      assert (a + b)[1..] == a[1..] + b;
      CountAppend(a[1..], b, c);
      assert Count(a + b, c) == (if a[0] == c then 1 else 0) + Count(a[1..] + b, c);
    } else {
      assert a + b == b;
    }
  }

  /** The shape of a subject suffix: no `_`, never starting or ending with
      `.`, exactly one `.` fewer than the method has words, and as long as
      the function name. */
  lemma SubjectShape(ws: seq<string>, name: string)
    requires ValidWords(ws)
    requires name == Join(ws, '_') || (ValidPascalWords(ws) && name == PascalOf(ws))
    ensures var s := ConvertMethodToSubject(name);
      && '_' !in s
      && |s| == |ConvertMethodToFunction(name)|
      && s[0] != '.' && s[|s| - 1] != '.'
      && Count(s, '.') == |ws| - 1
  {
    SubjectOfWords(ws);
    var s := Join(ws, '.');
    assert ConvertMethodToSubject(name) == s;
    JoinShape(ws, '.');
  }

  /** The conversions the unit tests of src/lib.rs:410-430 pin down, one
      lemma per test name. */
  lemma StartComponentExample()
    ensures ConvertMethodToFunction("StartComponent") == "start_component"
    ensures ConvertMethodToSubject("StartComponent") == "start.component"
  {
    Example(["start", "component"], "StartComponent", "start_component", "start.component");
  }

  lemma StartProviderExample()
    ensures ConvertMethodToFunction("StartProvider") == "start_provider"
    ensures ConvertMethodToSubject("StartProvider") == "start.provider"
  {
    Example(["start", "provider"], "StartProvider", "start_provider", "start.provider");
  }

  lemma PutConfigExample()
    ensures ConvertMethodToFunction("PutConfig") == "put_config"
    ensures ConvertMethodToSubject("PutConfig") == "put.config"
  {
    Example(["put", "config"], "PutConfig", "put_config", "put.config");
  }

  lemma Example(ws: seq<string>, name: string, fnName: string, subject: string)
    requires |ws| == 2 && ValidPascalWords(ws)
    requires name == Capitalize(ws[0]) + Capitalize(ws[1])
    requires fnName == ws[0] + "_" + ws[1]
    requires subject == ws[0] + "." + ws[1]
    ensures ConvertMethodToFunction(name) == fnName
    ensures ConvertMethodToSubject(name) == subject
  {
    assert PascalOf(ws) == name by {
      assert PascalOf(ws[1..]) == Capitalize(ws[1]) + PascalOf(ws[2..]);
    }
    assert Join(ws, '_') == fnName by { assert Join(ws[1..], '_') == ws[1]; }
    assert Join(ws, '.') == subject by { assert Join(ws[1..], '.') == ws[1]; }
    PascalToFunction(ws);
    SubjectOfWords(ws);
  }
}
