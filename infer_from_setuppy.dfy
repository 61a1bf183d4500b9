/** `InferFromSetuppy` (pyexec/dependencyInference/inferFromSetuppy.py): looks
    for the `install_requires=` list inside the `setup(...)` call of a setup.py.

    The scan of that list uses `_setup_call_regex` (`^setup[([]`), not
    `_dependency_regex`, so as written the result is the empty dict, or an
    IndexError when the list text itself starts with `setup(` or `setup[`
    (the pattern has no group "name"). */
module InferFromSetuppy {
  import opened Wrappers
  import opened Text
  import opened DepTable
  import InferExtraDependencies

  // ---------------------------------------------------------------------------
  // `_match_parentheses`
  // ---------------------------------------------------------------------------

  /** `matching`: the closing partner of an opening bracket. */
  function Closer(c: char): (r: Option<char>)
    ensures r.Some? <==> c == '(' || c == '[' || c == '{'
    ensures r.Some? ==> r.value != c
  {
    if c == '(' then Some(')') else if c == '[' then Some(']') else if c == '{' then Some('}') else None
  }

  /** Number of occurrences of c in s. */
  function Count(s: string, c: char): nat {
    if s == [] then 0 else Count(s[..|s| - 1], c) + (if s[|s| - 1] == c then 1 else 0)
  }

  lemma {:induction false} CountAppend(a: string, b: string, c: char)
    ensures Count(a + b, c) == Count(a, c) + Count(b, c)
    decreases |b|
  {
    if b == [] {
      assert a + b == a;
    } else {
      var n := |b| - 1;
      assert (a + b)[..|a + b| - 1] == a + b[..n];
      CountAppend(a, b[..n], c);
    }
  }

  lemma {:induction false} CountAbsent(s: string, c: char)
    requires c !in s
    ensures Count(s, c) == 0
    decreases |s|
  {
    if s != [] {
      var p := s[..|s| - 1];
      assert c !in p by {
        forall k | 0 <= k < |p| ensures p[k] != c { assert p[k] == s[k]; }
      }
      CountAbsent(s[..|s| - 1], c);
    }
  }

  /** The nesting depth after the first k characters: openers seen minus closers seen. */
  function Depth(s: string, k: nat, open: char, close: char): int
    requires k <= |s|
  {
    Count(s[..k], open) - Count(s[..k], close)
  }

  lemma DepthStep(s: string, i: nat, open: char, close: char)
    requires i < |s|
    ensures Depth(s, i + 1, open, close) ==
      Depth(s, i, open, close) + (if s[i] == open then 1 else 0) - (if s[i] == close then 1 else 0)
  {
    assert s[..i + 1][..i] == s[..i];
  }

  /** Position i holds the closer that brings the depth back to zero. */
  predicate Closes(s: string, open: char, close: char, i: int) {
    0 <= i < |s| && s[i] == close && Depth(s, i + 1, open, close) == 0
  }

  /** The first closing position at or after `from`, or -1. */
  function ClosingFrom(s: string, open: char, close: char, from: nat): (r: int)
    requires from <= |s|
    ensures r == -1 || (from <= r && Closes(s, open, close, r))
    ensures forall j :: from <= j < (if r == -1 then |s| else r) ==> !Closes(s, open, close, j)
    decreases |s| - from
  {
    if from == |s| then -1
    else if Closes(s, open, close, from) then from
    else ClosingFrom(s, open, close, from + 1)
  }

  /** The index `_match_parentheses` breaks at: the first position where the
      count of the opening bracket's kind returns to zero, or -1. */
  function ClosingIndex(s: string, open: char, close: char): (r: int)
    ensures r == -1 <==> forall j :: 0 <= j < |s| ==> !Closes(s, open, close, j)
    ensures r != -1 ==> Closes(s, open, close, r) && forall j :: 0 <= j < r ==> !Closes(s, open, close, j)
  {
    ClosingFrom(s, open, close, 0)
  }

  /** Python's `s[lo:hi]` for 0 <= lo: clamped, and empty when hi <= lo. */
  function Slice(s: string, lo: nat, hi: int): (r: string)
    ensures |r| == if hi <= lo || lo >= |s| then 0 else (if hi <= |s| then hi else |s|) - lo
  {
    var h := if hi > |s| then |s| else hi;
    if h <= lo then "" else s[lo..h]
  }

  /** What `_match_parentheses` returns, as written: `to_match[1:index-1]`. */
  function Matched(s: string): (r: Option<string>)
    ensures s == [] || Closer(s[0]).None? ==> r.None?
    ensures r.Some? ==> |s| >= 2 && (var i := ClosingIndex(s, s[0], Closer(s[0]).value);
                                     i >= 1 && r.value == Slice(s, 1, i - 1))
  {
    if s == [] then None
    else
      match Closer(s[0])
      case None => None
      case Some(close) =>
        var i := ClosingIndex(s, s[0], close);
        if i == -1 then None
        else
          assert i != 0 by { assert s[0] != close; }
          Some(Slice(s, 1, i - 1))
  }

  /** The evidently intended result: the text between the brackets. */
  function MatchedCorrected(s: string): (r: Option<string>)
    ensures r.None? <==> Matched(s).None?
  {
    if s == [] then None
    else
      match Closer(s[0])
      case None => None
      case Some(close) =>
        var i := ClosingIndex(s, s[0], close);
        if i == -1 then None
        else
          assert i != 0 by { assert s[0] != close; }
          Some(s[1..i])
  }

  /** For `open + t + close + rest` with no bracket of that kind inside t, the
      first closer after t is where the count returns to zero. */
  lemma ClosingAfterInner(open: char, close: char, t: string, rest: string)
    requires open != close && open !in t && close !in t
    ensures ClosingIndex([open] + t + [close] + rest, open, close) == |t| + 1
  {
    var s := [open] + t + [close] + rest;
    forall j | 1 <= j <= |t| + 1 ensures Depth(s, j, open, close) == 1 {
      var u := t[..j - 1];
      assert s[..j] == [open] + u;
      assert open !in u && close !in u;
      CountAbsent(u, open);
      CountAbsent(u, close);
      CountAppend([open], u, open);
      CountAppend([open], u, close);
      assert [open][..0] == [];
    }
    assert s[..|t| + 2] == ([open] + t) + [close];
    DepthStep(s, |t| + 1, open, close);
    assert Closes(s, open, close, |t| + 1);
  }

  /** Corrected, the brackets' contents come back whole, whatever other kinds
      of bracket they hold. */
  lemma MatchedCorrectedInner(open: char, t: string, rest: string)
    requires Closer(open).Some? && open !in t && Closer(open).value !in t
    ensures MatchedCorrected([open] + t + [Closer(open).value] + rest) == Some(t)
  {
    var close := Closer(open).value;
    var s := [open] + t + [close] + rest;
    ClosingAfterInner(open, close, t, rest);
    assert s[1..|t| + 1] == t;
  }

  /** As written, the character before the closer is lost too, and an inner
      text of one character gives the empty string. */
  lemma MatchedDropsLast(open: char, t: string, rest: string)
    requires Closer(open).Some? && open !in t && Closer(open).value !in t && t != []
    ensures Matched([open] + t + [Closer(open).value] + rest) == Some(t[..|t| - 1])
  {
    var close := Closer(open).value;
    var s := [open] + t + [close] + rest;
    ClosingAfterInner(open, close, t, rest);
    if |t| >= 2 {
      assert s[1..|t|] == t[..|t| - 1];
    }
  }

  /** `_match_parentheses("(ab)")` returns "a"; "ab" is meant. */
  lemma MatchedExample()
    ensures Matched("(ab)") == Some("a")
    ensures MatchedCorrected("(ab)") == Some("ab")
  {
    assert "(ab)" == ['('] + "ab" + [')'] + "";
    assert "ab"[..1] == "a";
    MatchedDropsLast('(', "ab", "");
    MatchedCorrectedInner('(', "ab", "");
  }

  /** `str.replace("\n", " ")` */
  function ReplaceNewlines(s: string): (r: string)
    ensures |r| == |s|
    ensures forall k :: 0 <= k < |s| ==> r[k] == if s[k] == '\n' then ' ' else s[k]
  {
    if s == [] then "" else [if s[0] == '\n' then ' ' else s[0]] + ReplaceNewlines(s[1..])
  }

  /** `_setup_call_regex.findall`: the pattern is anchored at the start, so the
      only possible match is the text's first six characters. */
  function SetupCallMatches(s: string): (r: seq<string>)
    ensures |r| <= 1
    ensures r != [] <==> |s| >= 6 && s[..5] == "setup" && (s[5] == '(' || s[5] == '[')
    ensures r != [] ==> r[0] == s[..6]
  {
    if |s| >= 6 && s[..5] == "setup" && (s[5] == '(' || s[5] == '[') then [s[..6]] else []
  }

  /** A match of the pattern is itself matched by it. */
  lemma MatchMatchesItself(s: string)
    requires SetupCallMatches(s) != []
    ensures SetupCallMatches(SetupCallMatches(s)[0]) != []
  {
    var m := s[..6];
    assert m[..5] == s[..5] && m[5] == s[5];
  }

  /** `_filter_setup_call`, as written: the text after the first "setup(" is
      bracket-matched with a "(" put back in front. */
  function FilterSetupCall(content: string): (r: Option<string>)
    ensures Find(content, "setup(") < 0 ==> r.None?
  {
    match After(content, "setup(")
    case None => None
    case Some(rest) => Matched("(" + rest)
  }

  /** What `infer_dependencies` returns, as written. */
  function SetupDependencies(content: string): (r: Result<Table>)
    ensures r.Ok? ==> r.value == []
    ensures r.Err? ==> r.error == IndexError
    ensures r.Err? ==> FilterSetupCall(content).Some?
  {
    match FilterSetupCall(content)
    case None => Ok([])
    case Some(arguments) =>
      match After(arguments, "install_requires=")
      case None => Ok([])
      case Some(tail) =>
        match Matched(tail)
        case None => Ok([])
        case Some(deps) => if SetupCallMatches(ReplaceNewlines(deps)) != [] then Err(IndexError) else Ok([])
  }

  /** Without "install_requires=" in the call, the result is empty. */
  lemma NoInstallRequires(content: string)
    requires FilterSetupCall(content).Some? && Find(FilterSetupCall(content).value, "install_requires=") < 0
    ensures SetupDependencies(content) == Ok([])
  {
  }

  /** A list that is not opened by a bracket right after the `=` (a space, a
      name) gives the empty dict. */
  lemma UnbracketedListEmpty(content: string, arguments: string, tail: string)
    requires FilterSetupCall(content) == Some(arguments)
    requires After(arguments, "install_requires=") == Some(tail)
    requires tail == [] || Closer(tail[0]).None?
    ensures SetupDependencies(content) == Ok([])
  {
  }

  /** The usual `install_requires=["requests", ...]` list never reaches the
      dict: its text starts with a quote, not with "setup". */
  lemma QuotedListEmpty(content: string, arguments: string, tail: string)
    requires FilterSetupCall(content) == Some(arguments)
    requires After(arguments, "install_requires=") == Some(tail)
    requires Matched(tail).Some? && Matched(tail).value != [] && Matched(tail).value[0] == '"'
    ensures SetupDependencies(content) == Ok([])
  {
    var deps := Matched(tail).value;
    assert SetupCallMatches(ReplaceNewlines(deps)) == [] by {
      var d := ReplaceNewlines(deps);
      assert d[0] == '"';
      assert |d| >= 5 ==> d[..5][0] == '"';
    }
  }

  class InferFromSetuppy {
    const fileContent: string

    constructor (content: string)
      ensures fileContent == content
    {
      fileContent := content;
    }

    /** `InferFromSetuppy(file_path)`: the base class's file check, then the
        file must be named exactly "setup.py". */
    static method Open(fileName: string, present: bool, isFile: bool, content: string)
      returns (r: Result<InferFromSetuppy>)
      ensures r.Err? <==> !present || !isFile || fileName != "setup.py"
      ensures r.Err? ==> r.error == ValueError
      ensures r.Ok? ==> fresh(r.value) && r.value.fileContent == content
    {
      var base := InferExtraDependencies.InferExtraDependencies.Open(present, isFile, content);
      if base.Err? {
        return Err(base.error);
      }
      if fileName != "setup.py" {
        return Err(ValueError);
      }
      var p := new InferFromSetuppy(base.value.fileContent);
      return Ok(p);
    }

    /** `_match_parentheses`: counts the first character's bracket kind and
        its partner, and stops where the count returns to zero. */
    static method MatchParentheses(toMatch: string) returns (r: Option<string>)
      ensures r == Matched(toMatch)
    {
      if |toMatch| == 0 {
        return None;
      }
      var parentheses := toMatch[0];
      var matching := Closer(parentheses);
      if matching.None? {
        return None;
      }
      var other := matching.value;
      var count := 0;
      var index := -1;
      for i := 0 to |toMatch|
        invariant count == Depth(toMatch, i, parentheses, other)
        invariant index == -1
        invariant forall j :: 0 <= j < i ==> !Closes(toMatch, parentheses, other, j)
      {
        DepthStep(toMatch, i, parentheses, other);
        var c := toMatch[i];
        if c == parentheses {
          count := count + 1;
        } else if c == other {
          count := count - 1;
          if count == 0 {
            assert Closes(toMatch, parentheses, other, i);
            index := i;
            break;
          }
        }
      }
      if index == -1 {
        return None;
      }
      assert ClosingIndex(toMatch, parentheses, other) == index;
      return Some(Slice(toMatch, 1, index - 1));
    }

    /** `_filter_setup_call` */
    method FilterSetupCallOf() returns (r: Option<string>)
      ensures r == FilterSetupCall(fileContent)
    {
      var parts := After(fileContent, "setup(");
      if parts.None? {
        return None;
      }
      r := MatchParentheses("(" + parts.value);
    }

    /** `infer_dependencies`, as written: the matches of `_setup_call_regex`
        are looked up for a group "name" the pattern does not have. */
    method InferDependencies() returns (r: Result<Table>)
      ensures r == SetupDependencies(fileContent)
    {
      var arguments := FilterSetupCallOf();
      if arguments.None? {
        return Ok([]);
      }
      var parts := After(arguments.value, "install_requires=");
      if parts.None? {
        return Ok([]);
      }
      var depsList := MatchParentheses(parts.value);
      if depsList.None? {
        return Ok([]);
      }
      var deps := ReplaceNewlines(depsList.value);
      var matches := SetupCallMatches(deps);
      if matches != [] {
        // The loop's first iteration: `_setup_call_regex.match` of its own
        // match succeeds, and `m.group("name")` raises.
        MatchMatchesItself(deps);
        var m := SetupCallMatches(matches[0]);
        return Err(IndexError);
      }
      return Ok([]);
    }
  }
}
