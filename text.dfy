/** The parts of Python's string handling the model relies on, restricted to
    ASCII: the character classes `\w` and `\d`, str.strip(), str.splitlines(),
    "\n".join(), str.partition() and str.split(sep, 1). */
module Text {
  import opened Wrappers

  predicate IsAsciiLetter(c: char) { 'a' <= c <= 'z' || 'A' <= c <= 'Z' }

  /** `\d` */
  predicate IsDigit(c: char) { '0' <= c <= '9' }

  /** `\w` */
  predicate IsWordChar(c: char) { IsAsciiLetter(c) || IsDigit(c) || c == '_' }

  /** The ASCII characters for which str.isspace() holds, which str.strip() removes. */
  predicate IsSpace(c: char) { c == ' ' || '\t' <= c <= '\r' || '\U{1C}' <= c <= '\U{1F}' }

  /** The ASCII line boundaries of str.splitlines(): \n, \r, \v, \f, \x1c, \x1d, \x1e. */
  predicate IsLineBreak(c: char) {
    c == '\n' || c == '\r' || c == '\U{0B}' || c == '\U{0C}' || '\U{1C}' <= c <= '\U{1E}'
  }

  predicate NoLineBreak(s: string) { forall k :: 0 <= k < |s| ==> !IsLineBreak(s[k]) }

  predicate All(s: string, p: char -> bool) { forall k :: 0 <= k < |s| ==> p(s[k]) }

  /** Length of the longest prefix of s made of characters satisfying p: what a
      greedy character class `[...]*` consumes. */
  function Span(s: string, p: char -> bool): (n: nat)
    ensures n <= |s| && All(s[..n], p)
    ensures n < |s| ==> !p(s[n])
  {
    if s != [] && p(s[0]) then 1 + Span(s[1..], p) else 0
  }

  /** Span is the only length with those two properties. */
  lemma {:induction false} SpanIs(s: string, p: char -> bool, k: nat)
    requires k <= |s| && All(s[..k], p) && (k < |s| ==> !p(s[k]))
    ensures Span(s, p) == k
    decreases k
  {
    if k > 0 {
      assert p(s[..k][0]);
      assert s[1..][..k - 1] == s[1..k];
      assert forall j :: 0 <= j < k - 1 ==> s[1..k][j] == s[..k][j + 1];
      SpanIs(s[1..], p, k - 1);
    }
  }

  /** A greedy class stops where the first character outside it starts. */
  lemma SpanConcat(a: string, b: string, p: char -> bool)
    requires All(a, p) && (b == [] || !p(b[0]))
    ensures Span(a + b, p) == |a| && (a + b)[..|a|] == a && (a + b)[|a|..] == b
  {
    assert (a + b)[..|a|] == a;
    SpanIs(a + b, p, |a|);
  }

  /** Regular-expression `$`: the end of the text, or just before a final "\n". */
  predicate AtEnd(rest: string) { rest == "" || rest == "\n" }

  /** The rest of s after the literal lit, if s starts with it. */
  function Expect(s: string, lit: string): (r: Option<string>)
    ensures r.Some? <==> lit <= s
    ensures r.Some? ==> s == lit + r.value
  {
    if lit <= s then Some(s[|lit|..]) else None
  }

  lemma ExpectConcat(lit: string, t: string)
    ensures Expect(lit + t, lit) == Some(t)
  {
    assert (lit + t)[..|lit|] == lit;
  }

  /** ` ?`: drops one leading space, if there is one. */
  function OptSpace(s: string): (r: string)
    ensures r == s || (s != [] && s[0] == ' ' && r == s[1..])
  {
    if s != [] && s[0] == ' ' then s[1..] else s
  }

  /** Number of trailing characters of s for which str.isspace() holds. */
  function TrailingSpace(s: string): (n: nat)
    ensures n <= |s|
    ensures forall k :: |s| - n <= k < |s| ==> IsSpace(s[k])
    ensures n < |s| ==> !IsSpace(s[|s| - n - 1])
  {
    if s != [] && IsSpace(s[|s| - 1]) then 1 + TrailingSpace(s[..|s| - 1]) else 0
  }

  /** Neither starts nor ends with a space. */
  predicate IsStripped(s: string) {
    s == [] || (!IsSpace(s[0]) && !IsSpace(s[|s| - 1]))
  }

  /** str.strip(): s without its leading and trailing spaces. */
  function Strip(s: string): (r: string)
    ensures IsStripped(r) && |r| <= |s|
    ensures IsStripped(s) ==> r == s
  {
    var lead := Span(s, IsSpace);
    if lead == |s| then ""
    else
      var trail := TrailingSpace(s);
      assert lead < |s| - trail;
      s[lead..|s| - trail]
  }

  /** Index of the first line boundary in s, or |s| if there is none. */
  function LineEnd(s: string): (i: nat)
    ensures i <= |s| && NoLineBreak(s[..i])
    ensures i < |s| ==> IsLineBreak(s[i])
  {
    if s == [] || IsLineBreak(s[0]) then 0 else 1 + LineEnd(s[1..])
  }

  /** str.splitlines(): "\r\n" counts as one boundary, and a final boundary
      does not start an empty last line. */
  function SplitLines(s: string): (lines: seq<string>)
    ensures s == [] <==> lines == []
    decreases |s|
  {
    if s == [] then []
    else
      var i := LineEnd(s);
      if i == |s| then [s]
      else
        var next := if s[i] == '\r' && i + 1 < |s| && s[i + 1] == '\n' then i + 2 else i + 1;
        [s[..i]] + SplitLines(s[next..])
  }

  /** A text without line boundaries is a single line. */
  lemma SplitOneLine(s: string)
    requires s != [] && NoLineBreak(s)
    ensures SplitLines(s) == [s]
  {
    LineEndNone(s);
  }

  lemma {:induction false} LineEndNone(s: string)
    requires NoLineBreak(s)
    ensures LineEnd(s) == |s|
    decreases |s|
  {
    if s != [] {
      assert NoLineBreak(s[1..]) by {
        forall k | 0 <= k < |s| - 1 ensures !IsLineBreak(s[1..][k]) { assert s[1..][k] == s[k + 1]; }
      }
      LineEndNone(s[1..]);
    }
  }

  /** The text made of the given lines, each followed by "\n". */
  function Terminated(lines: seq<string>): string
  {
    if lines == [] then "" else Terminated(lines[..|lines| - 1]) + lines[|lines| - 1] + "\n"
  }

  lemma {:induction false} TerminatedAppend(a: seq<string>, b: seq<string>)
    ensures Terminated(a + b) == Terminated(a) + Terminated(b)
    decreases |b|
  {
    if b == [] {
      assert a + b == a;
    } else {
      var b' := b[..|b| - 1];
      assert (a + b)[..|a + b| - 1] == a + b';
      TerminatedAppend(a, b');
    }
  }

  lemma TerminatedSnoc(lines: seq<string>, l: string)
    ensures Terminated(lines + [l]) == Terminated(lines) + l + "\n"
  {
    assert (lines + [l])[..|lines|] == lines;
  }

  lemma TerminatedThree(a: string, b: string, c: string)
    ensures Terminated([a, b, c]) == a + "\n" + b + "\n" + c + "\n"
  {
    TerminatedSnoc([], a);
    TerminatedSnoc([a], b);
    TerminatedSnoc([a, b], c);
    assert [] + [a] == [a] && [a] + [b] == [a, b] && [a, b] + [c] == [a, b, c];
  }

  lemma TerminatedCons(l: string, rest: seq<string>)
    ensures Terminated([l] + rest) == l + "\n" + Terminated(rest)
  {
    TerminatedAppend([l], rest);
    assert [l][..0] == [];
  }

  /** Splitting text made of terminated lines gives the lines back. */
  lemma {:induction false} SplitTerminated(lines: seq<string>)
    requires forall k :: 0 <= k < |lines| ==> NoLineBreak(lines[k])
    ensures SplitLines(Terminated(lines)) == lines
    decreases |lines|
  {
    if lines != [] {
      var l, rest := lines[0], lines[1..];
      assert lines == [l] + rest;
      TerminatedCons(l, rest);
      var s := Terminated(lines);
      assert s == l + "\n" + Terminated(rest);
      assert s[|l|] == '\n';
      assert s[..|l|] == l;
      var i := LineEnd(s);
      assert i == |l|;
      assert s[|l| + 1..] == Terminated(rest);
      SplitTerminated(rest);
    }
  }

  /** "\n".join(lines) */
  function JoinLines(lines: seq<string>): string
  {
    if lines == [] then "" else if |lines| == 1 then lines[0] else lines[0] + "\n" + JoinLines(lines[1..])
  }

  predicate OccursAt(s: string, sub: string, k: int) {
    0 <= k && k + |sub| <= |s| && s[k..k + |sub|] == sub
  }

  /** Index of the first occurrence of sub in s, or -1 (str.find). */
  function Find(s: string, sub: string): (i: int)
    ensures -1 <= i <= |s|
    ensures i >= 0 ==> OccursAt(s, sub, i)
    ensures forall k :: 0 <= k && (i < 0 || k < i) ==> !OccursAt(s, sub, k)
  {
    if sub <= s then
      assert s[0..|sub|] == sub;
      0
    else if s == [] then -1
    else
      var j := Find(s[1..], sub);
      assert forall k :: 1 <= k ==> OccursAt(s, sub, k) == OccursAt(s[1..], sub, k - 1) by {
        forall k | 1 <= k ensures OccursAt(s, sub, k) == OccursAt(s[1..], sub, k - 1) {
          if k + |sub| <= |s| { assert s[k..k + |sub|] == s[1..][k - 1..k - 1 + |sub|]; }
        }
      }
      assert !OccursAt(s, sub, 0) by { if |sub| <= |s| { assert s[0..|sub|] == s[..|sub|]; } }
      if j < 0 then -1 else j + 1
  }

  /** str.partition(sep)[2] when sep occurs: the text after its first occurrence. */
  function After(s: string, sep: string): (r: Option<string>)
    ensures r.None? <==> Find(s, sep) < 0
    ensures r.Some? ==> s == s[..Find(s, sep)] + sep + r.value
  {
    var i := Find(s, sep);
    if i < 0 then None
    else
      assert s == s[..i] + s[i..i + |sep|] + s[i + |sep|..];
      Some(s[i + |sep|..])
  }

  /** s.split(c, 1)[0]: the text before the first c. */
  function Before(s: string, c: char): (r: string)
    ensures r <= s && c !in r
    ensures |r| < |s| ==> s[|r|] == c
  {
    if s == [] || s[0] == c then [] else [s[0]] + Before(s[1..], c)
  }

  /** The text before the first c is everything up to it. */
  lemma {:induction false} BeforeFirst(a: string, c: char, b: string)
    requires c !in a
    ensures Before(a + [c] + b, c) == a
    decreases |a|
  {
    if a != [] {
      assert (a + [c] + b)[1..] == a[1..] + [c] + b;
      BeforeFirst(a[1..], c, b);
    }
  }

  function Lower(c: char): char {
    if 'A' <= c <= 'Z' then (c as int - 'A' as int + 'a' as int) as char else c
  }

  /** Case-insensitive equality of two ASCII characters. */
  predicate SameLetter(c: char, d: char) { Lower(c) == Lower(d) }

  /** s.rstrip("/") */
  function RStripSlash(s: string): (r: string)
    ensures r <= s && (r == [] || r[|r| - 1] != '/')
    ensures forall k :: |r| <= k < |s| ==> s[k] == '/'
  {
    if s != [] && s[|s| - 1] == '/' then RStripSlash(s[..|s| - 1]) else s
  }
}
