/**
  The bracket-escaping wrapper installed around the standard URI parser: the
  parser cannot cope with square brackets, so every `[` is rewritten to `%5B`
  and then every `]` to `%5D` before the string is handed on. The model stops
  at the rewritten string; the parser itself is not part of it.
 */
module Uri {

  /** The number of occurrences of `c` in `s`. */
  function Count(s: string, c: char): nat
    decreases |s|
  {
    if s == [] then 0 else (if s[0] == c then 1 else 0) + Count(s[1..], c)
  }

  /** String#gsub with a one-character pattern: every `c` in `s` becomes `rep`. */
  function Gsub(s: string, c: char, rep: string): (r: string)
    ensures forall d :: d in r ==> (d in s && d != c) || d in rep
    ensures c !in s ==> r == s
    decreases |s|
  {
    if s == [] then [] else (if s[0] == c then rep else [s[0]]) + Gsub(s[1..], c, rep)
  }

  /** With a three-character replacement, each occurrence of `c` grows the string by two. */
  lemma {:induction false} GsubLength(s: string, c: char, rep: string)
    requires |rep| == 3
    ensures |Gsub(s, c, rep)| == |s| + 2 * Count(s, c)
    decreases |s|
  {
    if s != [] {
      GsubLength(s[1..], c, rep);
    }
  }

  /** The string parse_with_safety passes to the standard parser. */
  function ParseWithSafety(uri: string): (r: string)
    ensures '[' !in r && ']' !in r
    ensures '[' !in uri && ']' !in uri ==> r == uri
  {
    Gsub(Gsub(uri, '[', "%5B"), ']', "%5D")
  }

  /** A single-pass reference: each character on its own, brackets escaped. */
  function EscapeChar(c: char): string {
    if c == '[' then "%5B" else if c == ']' then "%5D" else [c]
  }

  function EscapeEach(s: string): string
    decreases |s|
  {
    if s == [] then [] else EscapeChar(s[0]) + EscapeEach(s[1..])
  }

  /** Each bracket grows the string by two characters; nothing else changes length. */
  lemma EscapedLength(uri: string)
    ensures |ParseWithSafety(uri)| == |uri| + 2 * (Count(uri, '[') + Count(uri, ']'))
  {
    var once := Gsub(uri, '[', "%5B");
    GsubLength(uri, '[', "%5B");
    GsubLength(once, ']', "%5D");
    GsubCountOther(uri, '[', "%5B", ']');
  }

  /** Replacing `c` leaves the occurrences of a character `d` untouched when `rep` holds no `d`. */
  lemma {:induction false} GsubCountOther(s: string, c: char, rep: string, d: char)
    requires d != c && d !in rep
    ensures Count(Gsub(s, c, rep), d) == Count(s, d)
    decreases |s|
  {
    if s != [] {
      GsubCountOther(s[1..], c, rep, d);
      var head := if s[0] == c then rep else [s[0]];
      CountAppend(head, Gsub(s[1..], c, rep), d);
      if s[0] == c {
        CountAbsent(rep, d);
      } else {
        assert Count(head, d) == (if s[0] == d then 1 else 0);
      }
    }
  }

  lemma {:induction false} CountAppend(a: string, b: string, d: char)
    ensures Count(a + b, d) == Count(a, d) + Count(b, d)
    decreases |a|
  {
    if a != [] {
      assert (a + b)[1..] == a[1..] + b;
      CountAppend(a[1..], b, d);
    } else {
      assert a + b == b;
    }
  }

  lemma {:induction false} CountAbsent(s: string, d: char)
    requires d !in s
    ensures Count(s, d) == 0
    decreases |s|
  {
    if s != [] {
      CountAbsent(s[1..], d);
    }
  }

  /** Escaping an already escaped string changes nothing. */
  lemma Idempotent(uri: string)
    ensures ParseWithSafety(ParseWithSafety(uri)) == ParseWithSafety(uri)
  {
  }

  /** The two-pass rewrite agrees with escaping each character on its own. */
  lemma {:induction false} AgreesWithSinglePass(uri: string)
    ensures ParseWithSafety(uri) == EscapeEach(uri)
    decreases |uri|
  {
    if uri != [] {
      AgreesWithSinglePass(uri[1..]);
      var head := if uri[0] == '[' then "%5B" else [uri[0]];
      assert Gsub(uri, '[', "%5B") == head + Gsub(uri[1..], '[', "%5B");
      GsubAppend(head, Gsub(uri[1..], '[', "%5B"), ']', "%5D");
      assert Gsub(head, ']', "%5D") == EscapeChar(uri[0]);
    }
  }

  lemma {:induction false} GsubAppend(a: string, b: string, c: char, rep: string)
    ensures Gsub(a + b, c, rep) == Gsub(a, c, rep) + Gsub(b, c, rep)
    decreases |a|
  {
    if a != [] {
      assert (a + b)[1..] == a[1..] + b;
      GsubAppend(a[1..], b, c, rep);
    } else {
      assert a + b == b;
    }
  }

  /** Escaping distributes over concatenation, so every non-bracket character keeps its place and order. */
  lemma {:induction false} EscapeEachAppend(a: string, b: string)
    ensures EscapeEach(a + b) == EscapeEach(a) + EscapeEach(b)
    decreases |a|
  {
    if a != [] {
      assert (a + b)[1..] == a[1..] + b;
      EscapeEachAppend(a[1..], b);
    } else {
      assert a + b == b;
    }
  }
}
