/**
 * `splitStringByWhitespace`: the tokens that repeated `iss >> token` extracts from a
 * string, i.e. the maximal runs of non-whitespace characters, in order.
 */
module Tokenizer {
  import opened CText

  predicate NoSpace(w: string) {
    forall i :: 0 <= i < |w| ==> !IsSpace(w[i])
  }

  predicate AllSpace(s: string) {
    forall i :: 0 <= i < |s| ==> IsSpace(s[i])
  }

  /** What `operator>>` then reads: the longest whitespace-free prefix. */
  function Word(s: string): (r: string)
    ensures |r| <= |s| && r == s[..|r|] && NoSpace(r)
    ensures |r| == |s| || IsSpace(s[|r|])
  {
    if s != [] && !IsSpace(s[0]) then
      var w := Word(s[1..]);
      assert [s[0]] + w == s[..|w| + 1];
      [s[0]] + w
    else []
  }

  /** The tokens of `s`, in order: leading whitespace is skipped, then a word is read. */
  function Tokens(s: string): (r: seq<string>)
    ensures forall k :: 0 <= k < |r| ==> r[k] != [] && NoSpace(r[k])
    decreases |s|
  {
    if s == [] then []
    else if IsSpace(s[0]) then Tokens(s[1..])
    else
      var w := Word(s);
      assert |w| > 0;
      [w] + Tokens(s[|w|..])
  }

  /** Concatenation, with no separator. */
  function Concat(ws: seq<string>): string {
    if ws == [] then [] else ws[0] + Concat(ws[1..])
  }

  /** `s` with every whitespace character deleted. */
  function RemoveSpace(s: string): string {
    if s == [] then [] else (if IsSpace(s[0]) then [] else [s[0]]) + RemoveSpace(s[1..])
  }

  /** The tokens written out with one space between neighbours. */
  function Join(ws: seq<string>): string {
    if ws == [] then [] else if |ws| == 1 then ws[0] else ws[0] + " " + Join(ws[1..])
  }

  lemma TokensAtSpace(s: string)
    requires s != [] && IsSpace(s[0])
    ensures Tokens(s) == Tokens(s[1..])
  {
  }

  lemma {:induction false} WordOf(w: string, rest: string)
    requires NoSpace(w)
    requires rest == [] || IsSpace(rest[0])
    ensures Word(w + rest) == w
  {
    if w != [] {
      assert (w + rest)[1..] == w[1..] + rest;
      WordOf(w[1..], rest);
    }
  }

  /** A token that starts `s` and is followed by whitespace or the end is the first token. */
  lemma TokensAtWord(s: string, j: nat)
    requires 0 < j <= |s|
    requires NoSpace(s[..j])
    requires j == |s| || IsSpace(s[j])
    ensures Tokens(s) == [s[..j]] + Tokens(s[j..])
  {
    assert s == s[..j] + s[j..];
    WordOf(s[..j], s[j..]);
    assert !IsSpace(s[0]);
  }

  /** The loop of `splitStringByWhitespace`, one `iss >> token` per iteration. */
  method SplitByWhitespace(s: string) returns (tokens: seq<string>)
    ensures tokens == Tokens(s)
  {
    tokens := [];
    var i := 0;
    while i < |s|
      invariant 0 <= i <= |s|
      invariant tokens + Tokens(s[i..]) == Tokens(s)
    {
      if IsSpace(s[i]) {
        SplitStepSpace(s, i);
        i := i + 1;
      } else {
        var j := WordEnd(s, i);
        SplitStepWord(s, i, j);
        ghost var before := tokens;
        tokens := tokens + [s[i..j]];
        assert tokens + Tokens(s[j..]) == before + ([s[i..j]] + Tokens(s[j..]));
        i := j;
      }
    }
    assert s[i..] == [];
  }

  /** Where the word starting at `i` ends: the next whitespace character, or the end. */
  method WordEnd(s: string, i: nat) returns (j: nat)
    requires i < |s| && !IsSpace(s[i])
    ensures i < j <= |s| && (j == |s| || IsSpace(s[j]))
    ensures forall k :: i <= k < j ==> !IsSpace(s[k])
  {
    j := i + 1;
    while j < |s| && !IsSpace(s[j])
      invariant i < j <= |s|
      invariant forall k :: i <= k < j ==> !IsSpace(s[k])
    {
      j := j + 1;
    }
  }

  lemma SplitStepSpace(s: string, i: nat)
    requires i < |s| && IsSpace(s[i])
    ensures Tokens(s[i..]) == Tokens(s[i + 1..])
  {
    TokensAtSpace(s[i..]);
    assert s[i..][1..] == s[i + 1..];
  }

  lemma SplitStepWord(s: string, i: nat, j: nat)
    requires i < j <= |s|
    requires forall k :: i <= k < j ==> !IsSpace(s[k])
    requires j == |s| || IsSpace(s[j])
    ensures Tokens(s[i..]) == [s[i..j]] + Tokens(s[j..])
  {
    var rest := s[i..];
    assert rest[..j - i] == s[i..j] && rest[j - i..] == s[j..];
    TokensAtWord(rest, j - i);
  }

  lemma {:induction false} RemoveSpaceAppend(a: string, b: string)
    ensures RemoveSpace(a + b) == RemoveSpace(a) + RemoveSpace(b)
  {
    if a == [] {
      assert a + b == b;
    } else {
      assert (a + b)[0] == a[0] && (a + b)[1..] == a[1..] + b;
      RemoveSpaceAppend(a[1..], b);
    }
  }

  lemma {:induction false} RemoveSpaceOfWord(w: string)
    requires NoSpace(w)
    ensures RemoveSpace(w) == w
  {
    if w != [] {
      RemoveSpaceOfWord(w[1..]);
    }
  }

  /** Gluing the tokens together gives back the input without its whitespace. */
  lemma {:induction false} TokensConcat(s: string)
    ensures Concat(Tokens(s)) == RemoveSpace(s)
    decreases |s|
  {
    if s == [] {
    } else if IsSpace(s[0]) {
      TokensConcat(s[1..]);
    } else {
      var w := Word(s);
      assert |w| > 0;
      assert s == w + s[|w|..];
      RemoveSpaceAppend(w, s[|w|..]);
      RemoveSpaceOfWord(w);
      TokensConcat(s[|w|..]);
      assert Tokens(s)[1..] == Tokens(s[|w|..]);
    }
  }

  /** There are no tokens exactly when the input is empty or all whitespace. */
  lemma {:induction false} TokensEmpty(s: string)
    ensures Tokens(s) == [] <==> AllSpace(s)
  {
    if s != [] && IsSpace(s[0]) {
      TokensEmpty(s[1..]);
      assert AllSpace(s) <==> AllSpace(s[1..]);
    }
  }

  lemma JoinStep(ws: seq<string>)
    requires |ws| > 1 && ws[0] != [] && NoSpace(ws[0])
    ensures Tokens(Join(ws)) == [ws[0]] + Tokens(Join(ws[1..]))
  {
    var w := ws[0];
    var tail := " " + Join(ws[1..]);
    var s := w + tail;
    assert Join(ws) == s;
    assert s[..|w|] == w && s[|w|..] == tail;
    TokensAtWord(s, |w|);
    TokensAtSpace(tail);
    assert tail[1..] == Join(ws[1..]);
  }

  /** Tokens written out with single spaces are split back into the same tokens. */
  lemma {:induction false} TokensJoin(ws: seq<string>)
    requires forall k :: 0 <= k < |ws| ==> ws[k] != [] && NoSpace(ws[k])
    ensures Tokens(Join(ws)) == ws
  {
    if |ws| == 1 {
      var w := ws[0];
      TokensAtWord(w, |w|);
      assert w[|w|..] == [] && w[..|w|] == w;
    } else if |ws| > 1 {
      JoinStep(ws);
      TokensJoin(ws[1..]);
    }
  }
}
