/**
 * `escapeJsonString`: escapes the double quote, the backslash and the newline, and passes
 * every other character through unchanged. Two decoders are its partners: `Unescape`, the
 * exact inverse of this scheme, and `ReadString`, a reader of a JSON string body following
 * section 7 of RFC 8259, which refuses raw control characters.
 */
module JsonEscape {
  import opened Wrappers

  /** The three characters the escaper rewrites. */
  predicate IsSpecial(c: char) {
    c == '"' || c == '\\' || c == '\n'
  }

  function EscapeChar(c: char): string {
    if c == '"' then ['\\', '"']
    else if c == '\\' then ['\\', '\\']
    else if c == '\n' then ['\\', 'n']
    else [c]
  }

  function Escape(s: string): string {
    if s == [] then [] else EscapeChar(s[0]) + Escape(s[1..])
  }

  /** How many characters of `s` the escaper rewrites. */
  function CountSpecial(s: string): nat {
    if s == [] then 0 else (if IsSpecial(s[0]) then 1 else 0) + CountSpecial(s[1..])
  }

  lemma {:induction false} EscapeAppend(a: string, c: char)
    ensures Escape(a + [c]) == Escape(a) + EscapeChar(c)
  {
    if a == [] {
      assert a + [c] == [c];
    } else {
      assert (a + [c])[1..] == a[1..] + [c];
      EscapeAppend(a[1..], c);
    }
  }

  /** The loop of `escapeJsonString`, one input character per iteration. */
  method EscapeJsonString(input: string) returns (output: string)
    ensures output == Escape(input)
  {
    output := [];
    for i := 0 to |input|
      invariant output == Escape(input[..i])
    {
      var c := input[i];
      if c == '"' {
        output := output + ['\\', '"'];
      } else if c == '\\' {
        output := output + ['\\', '\\'];
      } else if c == '\n' {
        output := output + ['\\', 'n'];
      } else {
        output := output + [c];
      }
      assert input[..i + 1] == input[..i] + [c];
      EscapeAppend(input[..i], c);
    }
    assert input[..|input|] == input;
  }

  /** Each rewritten character costs exactly one extra output character. */
  lemma {:induction false} EscapeLength(s: string)
    ensures |Escape(s)| == |s| + CountSpecial(s)
  {
    if s != [] {
      EscapeLength(s[1..]);
    }
  }

  /** The escaper changes a string exactly when it holds a quote, a backslash or a newline. */
  lemma {:induction false} EscapeIdentity(s: string)
    ensures Escape(s) == s <==> CountSpecial(s) == 0
  {
    EscapeLength(s);
    if s != [] && !IsSpecial(s[0]) {
      EscapeIdentity(s[1..]);
    }
  }

  /** The output never holds a raw newline. */
  lemma {:induction false} EscapeNoNewline(s: string)
    ensures '\n' !in Escape(s)
  {
    if s != [] {
      EscapeNoNewline(s[1..]);
    }
  }

  /** Every double quote in the output is escaped: a backslash stands just before it. */
  lemma {:induction false} EscapeQuotesEscaped(s: string)
    ensures forall i :: 0 <= i < |Escape(s)| && Escape(s)[i] == '"' ==> 0 < i && Escape(s)[i - 1] == '\\'
  {
    if s != [] {
      EscapeQuotesEscaped(s[1..]);
      var head, tail := EscapeChar(s[0]), Escape(s[1..]);
      assert Escape(s) == head + tail;
      forall i | 0 <= i < |Escape(s)| && Escape(s)[i] == '"'
        ensures 0 < i && Escape(s)[i - 1] == '\\'
      {
        if i >= |head| {
          assert tail[i - |head|] == '"';
          assert Escape(s)[i - 1] == tail[i - |head| - 1];
        }
      }
    }
  }

  function Cons(c: char, o: Option<string>): Option<string> {
    match o
    case None => None
    case Some(t) => Some([c] + t)
  }

  /** The character an escape pair of this scheme stands for. */
  function Unescaped(c: char): char {
    if c == 'n' then '\n' else c
  }

  /**
   * The inverse of `Escape`: `\"`, `\\` and `\n` are decoded; a lone backslash, a raw
   * quote or a raw newline mean the text is not an output of the escaper.
   */
  function Unescape(r: string): Option<string> {
    if r == [] then Some([])
    else if r[0] == '\\' then
      if |r| >= 2 && (r[1] == '"' || r[1] == '\\' || r[1] == 'n') then Cons(Unescaped(r[1]), Unescape(r[2..]))
      else None
    else if IsSpecial(r[0]) then None
    else Cons(r[0], Unescape(r[1..]))
  }

  /** Unescaping the escaper's output returns the input exactly. */
  lemma {:induction false} UnescapeEscape(s: string)
    ensures Unescape(Escape(s)) == Some(s)
  {
    if s != [] {
      var e := EscapeChar(s[0]);
      var r := e + Escape(s[1..]);
      assert Escape(s) == r;
      assert s == [s[0]] + s[1..];
      UnescapeEscape(s[1..]);
      if IsSpecial(s[0]) {
        assert r[0] == '\\' && r[1] == e[1] && Unescaped(e[1]) == s[0];
        assert r[2..] == Escape(s[1..]);
      } else {
        assert r[1..] == Escape(s[1..]);
      }
    }
  }

  /** Conversely, every text `Unescape` accepts is the escaper's output for what it decodes to. */
  lemma {:induction false} EscapeUnescape(r: string)
    requires Unescape(r).Some?
    ensures Escape(Unescape(r).value) == r
    decreases |r|
  {
    if r != [] {
      if r[0] == '\\' {
        EscapeUnescape(r[2..]);
        assert r == r[..2] + r[2..];
      } else {
        EscapeUnescape(r[1..]);
        assert r == [r[0]] + r[1..];
      }
    }
  }

  /** The two-character escapes of section 7 of RFC 8259 (`\uXXXX` is not decoded). */
  function ShortEscape(c: char): Option<char> {
    if c == '"' || c == '\\' || c == '/' then Some(c)
    else if c == 'b' then Some('\U{8}')
    else if c == 'f' then Some('\U{C}')
    else if c == 'n' then Some('\n')
    else if c == 'r' then Some('\r')
    else if c == 't' then Some('\t')
    else None
  }

  function ConsRead(c: char, o: Option<(string, string)>): Option<(string, string)> {
    match o
    case None => None
    case Some((t, rest)) => Some(([c] + t, rest))
  }

  /**
   * Reads a JSON string body that starts right after its opening quote, as section 7 of
   * RFC 8259 defines it: up to the first unescaped quote, decoding escapes, and failing on
   * a raw control character (below U+0020) or a malformed escape. The result is the decoded
   * text and what follows the closing quote.
   */
  function ReadString(r: string): Option<(string, string)>
    decreases |r|
  {
    if r == [] then None
    else if r[0] == '"' then Some(([], r[1..]))
    else if r[0] == '\\' then
      if |r| >= 2 && ShortEscape(r[1]).Some? then ConsRead(ShortEscape(r[1]).value, ReadString(r[2..]))
      else None
    else if r[0] < ' ' then None
    else ConsRead(r[0], ReadString(r[1..]))
  }

  /** A character the escaper leaves raw although RFC 8259 requires it escaped. */
  predicate IsBareControl(c: char) {
    c < ' ' && c != '\n'
  }

  predicate NoBareControl(s: string) {
    forall i :: 0 <= i < |s| ==> !IsBareControl(s[i])
  }

  /**
   * Embedded in quotes, the escaper's output is read back by a JSON reader as exactly the
   * input, ending at the closing quote, provided the input has no control character other
   * than the newline. No quote of the input ends the string early.
   */
  lemma {:induction false} ReadEscaped(s: string, rest: string)
    requires NoBareControl(s)
    ensures ReadString(Escape(s) + ['"'] + rest) == Some((s, rest))
  {
    var r := Escape(s) + ['"'] + rest;
    if s == [] {
      assert r == ['"'] + rest;
    } else {
      var tail := Escape(s[1..]) + ['"'] + rest;
      assert r == EscapeChar(s[0]) + tail;
      assert s == [s[0]] + s[1..];
      assert NoBareControl(s[1..]) by {
        forall i | 0 <= i < |s[1..]| ensures !IsBareControl(s[1..][i]) {
          assert s[1..][i] == s[i + 1];
        }
      }
      ReadEscaped(s[1..], rest);
      assert !IsBareControl(s[0]);
      if IsSpecial(s[0]) {
        var e := EscapeChar(s[0]);
        assert r[0] == '\\' && r[1] == e[1] && ShortEscape(e[1]) == Some(s[0]);
        assert r[2..] == tail;
      } else {
        assert r[1..] == tail;
      }
    }
  }

  /**
   * The escaper is only a partial implementation of RFC 8259: any other control character
   * (a tab, a carriage return) is passed through raw, and a JSON reader then rejects the text.
   */
  lemma {:induction false} ReadEscapedRejectsControl(s: string, rest: string)
    requires !NoBareControl(s)
    ensures ReadString(Escape(s) + ['"'] + rest) == None
  {
    var r := Escape(s) + ['"'] + rest;
    var tail := Escape(s[1..]) + ['"'] + rest;
    assert r == EscapeChar(s[0]) + tail;
    if IsBareControl(s[0]) {
      assert r[0] == s[0];
    } else {
      assert !NoBareControl(s[1..]) by {
        var i :| 0 <= i < |s| && IsBareControl(s[i]);
        assert s[1..][i - 1] == s[i];
      }
      ReadEscapedRejectsControl(s[1..], rest);
      if IsSpecial(s[0]) {
        assert r[2..] == tail;
      } else {
        assert r[1..] == tail;
      }
    }
  }
}
