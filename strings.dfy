/**
  The Python string built-ins the grading script relies on: `str.strip()`,
  `str.split()`, `str.split('\n')` and `str.startswith`, stated over
  `seq<char>`, with the whitespace set of `str.isspace()` behind the first
  two and the regular-expression class `\s`.
 */
module Strings {

  /** The characters Python's `str.isspace()` accepts; `strip()`, `split()`
      and the regular-expression class `\s` all use this set. */
  predicate IsSpace(c: char) {
    var n := c as int;
    || (0x09 <= n <= 0x0D) || (0x1C <= n <= 0x20)
    || n == 0x85 || n == 0xA0 || n == 0x1680
    || (0x2000 <= n <= 0x200A)
    || n == 0x2028 || n == 0x2029 || n == 0x202F || n == 0x205F || n == 0x3000
  }

  /** An ASCII decimal digit. */
  predicate IsDigit(c: char) {
    '0' <= c <= '9'
  }

  predicate AllSpace(s: string) {
    forall i :: 0 <= i < |s| ==> IsSpace(s[i])
  }

  predicate NoSpace(s: string) {
    forall i :: 0 <= i < |s| ==> !IsSpace(s[i])
  }

  predicate StartsWith(s: string, prefix: string) {
    |prefix| <= |s| && s[..|prefix|] == prefix
  }

  /** Index of the first occurrence of `c` in `s`, or `|s|` when there is none. */
  function Find(s: string, c: char): (k: nat)
    ensures k <= |s|
    ensures forall i :: 0 <= i < k ==> s[i] != c
    ensures k < |s| ==> s[k] == c
  {
    if s == [] || s[0] == c then 0 else 1 + Find(s[1..], c)
  }

  /** Number of whitespace characters at the front of `s`. */
  function LeadingSpaces(s: string): (n: nat)
    ensures n <= |s|
    ensures AllSpace(s[..n])
    ensures n < |s| ==> !IsSpace(s[n])
  {
    if s == [] || !IsSpace(s[0]) then 0
    else
      var m := LeadingSpaces(s[1..]);
      assert s[..1 + m] == [s[0]] + s[1..][..m];
      1 + m
  }

  /** Number of whitespace characters at the back of `s`. */
  function TrailingSpaces(s: string): (n: nat)
    ensures n <= |s|
    ensures AllSpace(s[|s| - n..])
    ensures n < |s| ==> !IsSpace(s[|s| - n - 1])
  {
    if s == [] || !IsSpace(s[|s| - 1]) then 0
    else
      var init := s[..|s| - 1];
      var m := TrailingSpaces(init);
      assert s[|s| - (1 + m)..] == init[|init| - m..] + [s[|s| - 1]];
      1 + m
  }

  /** Python's `s.strip()`: `s` without its leading and trailing whitespace. */
  function Strip(s: string): string {
    var i := LeadingSpaces(s);
    var t := s[i..];
    t[..|t| - TrailingSpaces(t)]
  }

  /** `Strip` removes whitespace from both ends and nothing else; the two
      ensures determine the result uniquely. */
  lemma StripRemovesOuterSpace(s: string)
    ensures exists i, j :: 0 <= i <= j <= |s| && Strip(s) == s[i..j] && AllSpace(s[..i]) && AllSpace(s[j..])
    ensures var r := Strip(s); r == [] || (!IsSpace(r[0]) && !IsSpace(r[|r| - 1]))
  {
    StripIsInnerSlice(s);
    StripEndsAreNotSpace(s);
  }

  lemma StripIsInnerSlice(s: string)
    ensures exists i, j :: 0 <= i <= j <= |s| && Strip(s) == s[i..j] && AllSpace(s[..i]) && AllSpace(s[j..])
  {
    var i := LeadingSpaces(s);
    var t := s[i..];
    var k := |t| - TrailingSpaces(t);
    assert Strip(s) == t[..k];
    assert t[..k] == s[i..i + k];
    assert t[k..] == s[i + k..];
    assert AllSpace(s[i + k..]);
    assert AllSpace(s[..i]);
  }

  lemma StripEndsAreNotSpace(s: string)
    ensures var r := Strip(s); r == [] || (!IsSpace(r[0]) && !IsSpace(r[|r| - 1]))
  {
    var i := LeadingSpaces(s);
    var t := s[i..];
    var j := TrailingSpaces(t);
    var r := t[..|t| - j];
    assert Strip(s) == r;
    if r != [] {
      assert r[0] == t[0] == s[i];
      assert r[|r| - 1] == t[|t| - j - 1];
    }
  }

  /** The text that `JoinLines` puts back together: the pieces separated by `'\n'`. */
  function JoinLines(lines: seq<string>): string
    requires |lines| >= 1
  {
    if |lines| == 1 then lines[0] else lines[0] + "\n" + JoinLines(lines[1..])
  }

  /** Python's `text.split('\n')`: never empty, and `''.split('\n') == ['']`. */
  function SplitLines(text: string): (lines: seq<string>)
    ensures |lines| >= 1
    ensures forall i :: 0 <= i < |lines| ==> '\n' !in lines[i]
    ensures JoinLines(lines) == text
    decreases |text|
  {
    var k := Find(text, '\n');
    if k == |text| then
      [text]
    else
      var rest := SplitLines(text[k + 1..]);
      assert ([text[..k]] + rest)[1..] == rest;
      assert text == text[..k] + "\n" + text[k + 1..];
      [text[..k]] + rest
  }

  /** Splitting a joined text gives back the pieces, so `SplitLines` and
      `JoinLines` are inverse to each other. */
  lemma {:induction false} SplitLinesOfJoinLines(lines: seq<string>)
    requires |lines| >= 1
    requires forall i :: 0 <= i < |lines| ==> '\n' !in lines[i]
    ensures SplitLines(JoinLines(lines)) == lines
  {
    var first := lines[0];
    if |lines| == 1 {
      assert Find(first, '\n') == |first|;
    } else {
      var rest := JoinLines(lines[1..]);
      var text := first + "\n" + rest;
      var k := Find(text, '\n');
      assert text[|first|] == '\n';
      assert k == |first|;
      assert text[..k] == first;
      assert text[k + 1..] == rest;
      SplitLinesOfJoinLines(lines[1..]);
      assert lines == [first] + lines[1..];
    }
  }

  /** Length of the run of non-whitespace characters at the front of `s`. */
  function TokenLength(s: string): (n: nat)
    ensures n <= |s|
    ensures NoSpace(s[..n])
    ensures n < |s| ==> IsSpace(s[n])
  {
    if s == [] || IsSpace(s[0]) then 0
    else
      var m := TokenLength(s[1..]);
      assert s[..1 + m] == [s[0]] + s[1..][..m];
      1 + m
  }

  /** The characters of `s` that are not whitespace, in order. */
  function NonSpace(s: string): string {
    if s == [] then [] else (if IsSpace(s[0]) then [] else [s[0]]) + NonSpace(s[1..])
  }

  function Concat(parts: seq<string>): string {
    if parts == [] then [] else parts[0] + Concat(parts[1..])
  }

  lemma {:induction false} NonSpaceAppend(a: string, b: string)
    ensures NonSpace(a + b) == NonSpace(a) + NonSpace(b)
  {
    if a != [] {
      assert (a + b)[1..] == a[1..] + b;
      NonSpaceAppend(a[1..], b);
    } else {
      assert a + b == b;
    }
  }

  lemma {:induction false} NonSpaceOfToken(t: string)
    requires NoSpace(t)
    ensures NonSpace(t) == t
  {
    if t != [] {
      NonSpaceOfToken(t[1..]);
    }
  }

  /** Python's `s.split()`: the maximal runs of non-whitespace characters. */
  function SplitWhitespace(s: string): seq<string>
    decreases |s|
  {
    if s == [] then []
    else if IsSpace(s[0]) then SplitWhitespace(s[1..])
    else
      var n := TokenLength(s);
      [s[..n]] + SplitWhitespace(s[n..])
  }

  /** Every piece `SplitWhitespace` yields is a non-empty token, and together
      they are exactly the non-whitespace characters of `s`. */
  lemma {:induction false} SplitWhitespaceTokens(s: string)
    ensures forall i :: 0 <= i < |SplitWhitespace(s)| ==> |SplitWhitespace(s)[i]| > 0 && NoSpace(SplitWhitespace(s)[i])
    ensures Concat(SplitWhitespace(s)) == NonSpace(s)
    decreases |s|
  {
    if s == [] {
    } else if IsSpace(s[0]) {
      SplitWhitespaceTokens(s[1..]);
    } else {
      var n := TokenLength(s);
      var rest := SplitWhitespace(s[n..]);
      SplitWhitespaceTokens(s[n..]);
      assert s == s[..n] + s[n..];
      NonSpaceAppend(s[..n], s[n..]);
      NonSpaceOfToken(s[..n]);
      assert ([s[..n]] + rest)[1..] == rest;
    }
  }

  /** Nothing but whitespace: no tokens. */
  lemma {:induction false} SplitWhitespaceOfAllSpace(s: string)
    requires AllSpace(s)
    ensures SplitWhitespace(s) == []
    decreases |s|
  {
    if s != [] {
      assert AllSpace(s[1..]) by {
        assert forall i :: 0 <= i < |s| - 1 ==> s[1..][i] == s[i + 1];
      }
      SplitWhitespaceOfAllSpace(s[1..]);
    }
  }

  /** Whitespace of any length, a token, and then whitespace or the end:
      the token comes first, whole, and the split goes on after it. */
  lemma {:induction false} SplitWhitespaceOfPaddedToken(w: string, t: string, rest: string)
    requires AllSpace(w) && |t| > 0 && NoSpace(t)
    requires rest == [] || IsSpace(rest[0])
    ensures SplitWhitespace(w + t + rest) == [t] + SplitWhitespace(rest)
    decreases |w|
  {
    var s := w + t + rest;
    if w == [] {
      assert s == t + rest;
      TokenLengthOfToken(t, rest);
      assert s[..|t|] == t && s[|t|..] == rest;
    } else {
      assert s[0] == w[0];
      assert s[1..] == w[1..] + t + rest;
      assert AllSpace(w[1..]) by {
        assert forall i :: 0 <= i < |w| - 1 ==> w[1..][i] == w[i + 1];
      }
      SplitWhitespaceOfPaddedToken(w[1..], t, rest);
    }
  }

  /** The tokens written out with one blank between neighbours. */
  function JoinSpaced(tokens: seq<string>): string {
    if tokens == [] then []
    else if |tokens| == 1 then tokens[0]
    else tokens[0] + " " + JoinSpaced(tokens[1..])
  }

  lemma {:induction false} TokenLengthOfToken(t: string, rest: string)
    requires |t| > 0 && NoSpace(t)
    requires rest == [] || IsSpace(rest[0])
    ensures TokenLength(t + rest) == |t|
  {
    var s := t + rest;
    assert s[..|t|] == t;
    if rest != [] {
      assert s[|t|] == rest[0];
    }
  }

  /** Splitting tokens joined by blanks gives back the tokens: the partner
      of `SplitWhitespace`. */
  lemma {:induction false} SplitWhitespaceOfJoinSpaced(tokens: seq<string>)
    requires forall i :: 0 <= i < |tokens| ==> |tokens[i]| > 0 && NoSpace(tokens[i])
    ensures SplitWhitespace(JoinSpaced(tokens)) == tokens
  {
    if tokens == [] {
    } else if |tokens| == 1 {
      var t := tokens[0];
      TokenLengthOfToken(t, []);
      assert t + [] == t;
      assert t[|t|..] == [];
    } else {
      var t := tokens[0];
      var rest := JoinSpaced(tokens[1..]);
      var s := t + " " + rest;
      assert s == t + (" " + rest);
      TokenLengthOfToken(t, " " + rest);
      assert s[..|t|] == t;
      assert s[|t|..] == " " + rest;
      assert (" " + rest)[1..] == rest;
      SplitWhitespaceOfJoinSpaced(tokens[1..]);
      assert tokens == [t] + tokens[1..];
    }
  }
}
