/** Escaping of text placed between double quotes in the generated AppleScript:
    first every backslash is doubled, then every double quote gets a backslash. */
module Escaping {
  import opened Counting

  /** Python's `s.replace(c, rep)` for a one-character pattern: every occurrence, left to right. */
  function ReplaceChar(s: string, c: char, rep: string): (r: string)
    ensures c !in s ==> r == s
  {
    if |s| == 0 then ""
    else (if s[0] == c then rep else [s[0]]) + ReplaceChar(s[1..], c, rep)
  }

  /** `escape_applescript`: the two replacements in the order the launcher applies them.
      The result agrees with escaping each character on its own, it is a literal body the
      closing quote ends exactly, and it reads back as the original text. */
  function Escape(s: string): (r: string)
    ensures r == EscapeEach(s)
    ensures ClosedBody(r)
    ensures Unescape(r) == s
  {
    ReplaceChainIsEscapeEach(s);
    EscapeEachClosed(s);
    UnescapeEscapeEach(s);
    ReplaceChar(ReplaceChar(s, '\\', "\\\\"), '"', "\\\"")
  }

  /** The same replacements applied in the opposite order, quotes first. */
  function EscapeQuotesFirst(s: string): string {
    ReplaceChar(ReplaceChar(s, '"', "\\\""), '\\', "\\\\")
  }

  /** Reference definition: each character escaped on its own. */
  function EscapeChar(c: char): string {
    if c == '\\' then "\\\\" else if c == '"' then "\\\"" else [c]
  }

  function EscapeEach(s: string): string {
    if |s| == 0 then "" else EscapeChar(s[0]) + EscapeEach(s[1..])
  }

  /** How a double-quoted literal body reads back, scanning left to right: `\\` gives `\`,
      `\"` gives `"`, and anything else stands for itself. AppleScript also reads `\n`, `\r`
      and `\t` as control characters; this decoder agrees with AppleScript on closed bodies
      (`ClosedBody`), where every backslash starts `\\` or `\"`, and those are the only
      bodies `Escape` produces and the only ones the lemmas below decode. */
  function Unescape(t: string): string {
    if |t| == 0 then ""
    else if t[0] == '\\' && |t| >= 2 && (t[1] == '\\' || t[1] == '"') then [t[1]] + Unescape(t[2..])
    else [t[0]] + Unescape(t[1..])
  }

  /** A literal body that the closing quote ends exactly: no bare `"` and no backslash
      that is not part of a `\\` or `\"` pair. */
  predicate ClosedBody(t: string)
    decreases |t|
  {
    if |t| == 0 then true
    else if t[0] == '\\' then |t| >= 2 && (t[1] == '\\' || t[1] == '"') && ClosedBody(t[2..])
    else t[0] != '"' && ClosedBody(t[1..])
  }

  lemma {:induction false} ReplaceCharAppend(a: string, b: string, c: char, rep: string)
    ensures ReplaceChar(a + b, c, rep) == ReplaceChar(a, c, rep) + ReplaceChar(b, c, rep)
  {
    if |a| == 0 {
      assert a + b == b;
    } else {
      assert (a + b)[0] == a[0];
      assert (a + b)[1..] == a[1..] + b;
      ReplaceCharAppend(a[1..], b, c, rep);
    }
  }

  /** The two-pass replacement equals escaping each character on its own. */
  lemma {:induction false} ReplaceChainIsEscapeEach(s: string)
    ensures ReplaceChar(ReplaceChar(s, '\\', "\\\\"), '"', "\\\"") == EscapeEach(s)
  {
    if |s| > 0 {
      var head := if s[0] == '\\' then "\\\\" else [s[0]];
      assert ReplaceChar(s, '\\', "\\\\") == head + ReplaceChar(s[1..], '\\', "\\\\");
      ReplaceCharAppend(head, ReplaceChar(s[1..], '\\', "\\\\"), '"', "\\\"");
      if s[0] == '\\' {
        assert ReplaceChar(head, '"', "\\\"") == head;
      } else if s[0] == '"' {
        assert ReplaceChar(head, '"', "\\\"") == "\\\"";
      } else {
        assert ReplaceChar(head, '"', "\\\"") == head;
      }
      ReplaceChainIsEscapeEach(s[1..]);
    }
  }

  /** Escaping one character in front of more text. */
  lemma EscapeCons(c: char, s: string)
    ensures Escape([c] + s) == EscapeChar(c) + Escape(s)
  {
    EscapeEachCons(c, s);
  }

  lemma EscapeAppend(a: string, b: string)
    ensures Escape(a + b) == Escape(a) + Escape(b)
  {
    ReplaceCharAppend(a, b, '\\', "\\\\");
    ReplaceCharAppend(ReplaceChar(a, '\\', "\\\\"), ReplaceChar(b, '\\', "\\\\"), '"', "\\\"");
  }

  /** Escaping a backslash in front of more text. */
  lemma EscapeBackslashThen(rest: string)
    ensures Escape(['\\'] + rest) == "\\\\" + Escape(rest)
  {
    EscapeCons('\\', rest);
  }

  /** Escaping a double quote in front of more text. */
  lemma EscapeQuoteThen(rest: string)
    ensures Escape(['"'] + rest) == "\\\"" + Escape(rest)
  {
    EscapeCons('"', rest);
  }

  /** Escaping text without special characters in front of more text. */
  lemma EscapePlainThen(plain: string, rest: string)
    requires '\\' !in plain && '"' !in plain
    ensures Escape(plain + rest) == plain + Escape(rest)
  {
    EscapeAppend(plain, rest);
    EscapeUnchanged(plain);
  }

  lemma UnescapePair(c: char, rest: string)
    requires c == '\\' || c == '"'
    ensures Unescape(['\\', c] + rest) == [c] + Unescape(rest)
  {
    assert (['\\', c] + rest)[2..] == rest;
  }

  lemma UnescapePlain(c: char, rest: string)
    requires c != '\\'
    ensures Unescape([c] + rest) == [c] + Unescape(rest)
  {
    assert ([c] + rest)[1..] == rest;
  }

  lemma UnescapeEscapeChar(c: char, rest: string)
    ensures Unescape(EscapeChar(c) + rest) == [c] + Unescape(rest)
  {
    if c == '\\' || c == '"' {
      assert EscapeChar(c) == ['\\', c];
      UnescapePair(c, rest);
    } else {
      UnescapePlain(c, rest);
    }
  }

  lemma {:induction false} UnescapeEscapeEachAppend(a: string, t: string)
    ensures Unescape(EscapeEach(a) + t) == a + Unescape(t)
  {
    if |a| == 0 {
      assert EscapeEach(a) + t == t;
    } else {
      var c := a[0];
      var tail := a[1..];
      var rest := EscapeEach(tail) + t;
      assert a == [c] + tail;
      EscapeEachCons(c, tail);
      calc {
        Unescape(EscapeEach(a) + t);
        { assert EscapeEach(a) + t == EscapeChar(c) + rest; }
        Unescape(EscapeChar(c) + rest);
        { UnescapeEscapeChar(c, rest); }
        [c] + Unescape(rest);
        { UnescapeEscapeEachAppend(tail, t); }
        [c] + (tail + Unescape(t));
        ([c] + tail) + Unescape(t);
      }
    }
  }

  /** Reading the escaped text back as a literal body recovers the original exactly. */
  lemma UnescapeEscapeEach(s: string)
    ensures Unescape(EscapeEach(s)) == s
  {
    UnescapeEscapeEachAppend(s, "");
    assert EscapeEach(s) + "" == EscapeEach(s);
    assert s + "" == s;
  }

  lemma {:induction false} EscapeEachClosed(s: string)
    ensures ClosedBody(EscapeEach(s))
  {
    if |s| > 0 {
      EscapeEachClosed(s[1..]);
      var e := EscapeChar(s[0]);
      var t := e + EscapeEach(s[1..]);
      if s[0] == '\\' || s[0] == '"' {
        assert t[0] == '\\' && t[1] == s[0];
        assert t[2..] == EscapeEach(s[1..]);
      } else {
        assert t[0] == s[0];
        assert t[1..] == EscapeEach(s[1..]);
      }
    }
  }

  lemma EscapeEachCons(c: char, s: string)
    ensures EscapeEach([c] + s) == EscapeChar(c) + EscapeEach(s)
  {
    assert ([c] + s)[1..] == s;
  }

  lemma {:induction false} EscapeEachUnescape(t: string)
    requires ClosedBody(t)
    ensures EscapeEach(Unescape(t)) == t
  {
    if |t| > 0 {
      if t[0] == '\\' {
        var rest := t[2..];
        assert t == ['\\', t[1]] + rest;
        UnescapePair(t[1], rest);
        EscapeEachUnescape(rest);
        EscapeEachCons(t[1], Unescape(rest));
        assert EscapeChar(t[1]) == ['\\', t[1]];
      } else {
        var rest := t[1..];
        assert t == [t[0]] + rest;
        UnescapePlain(t[0], rest);
        EscapeEachUnescape(rest);
        EscapeEachCons(t[0], Unescape(rest));
        assert EscapeChar(t[0]) == [t[0]];
      }
    }
  }

  /** Every closed literal body is the escape of what it reads back as: together with
      the read-back clause of `Escape`, escaping is a bijection onto closed bodies. */
  lemma {:induction false} EscapeUnescape(t: string)
    requires ClosedBody(t)
    ensures Escape(Unescape(t)) == t
  {
    EscapeEachUnescape(t);
  }

  /** Text with neither a backslash nor a double quote is left unchanged. */
  lemma EscapeUnchanged(s: string)
    requires '\\' !in s && '"' !in s
    ensures Escape(s) == s
  {
  }

  lemma {:induction false} EscapeEachLength(s: string)
    ensures |EscapeEach(s)| == |s| + Count(s, '\\') + Count(s, '"')
  {
    if |s| > 0 {
      EscapeEachLength(s[1..]);
      assert s == [s[0]] + s[1..];
      CountCons(s[0], s[1..], '\\');
      CountCons(s[0], s[1..], '"');
      assert |EscapeChar(s[0])| == 1 + (if s[0] == '\\' then 1 else 0) + (if s[0] == '"' then 1 else 0);
    }
  }

  /** Escaping adds exactly one character per backslash and per double quote. */
  lemma {:induction false} EscapeLength(s: string)
    ensures |Escape(s)| == |s| + Count(s, '\\') + Count(s, '"')
  {
    EscapeEachLength(s);
  }

  /** Replacing quotes before backslashes would not round-trip: a lone `"` would read back as `\"`. */
  lemma QuotesFirstBreaksRoundTrip()
    ensures Unescape(EscapeQuotesFirst("\"")) == "\\\""
    ensures Unescape(Escape("\"")) == "\""
  {
    assert ReplaceChar("\"", '"', "\\\"") == "\\\"";
    assert ReplaceChar("\\\"", '\\', "\\\\") == "\\\\\"";
    assert Unescape("\\\\\"") == "\\\"";
    assert ReplaceChar("\"", '\\', "\\\\") == "\"";
    assert Unescape("\\\"") == "\"";
  }
}
