/** `InferFromRequirementstxt` (pyexec/dependencyInference/inferFromRequirementstxt.py):
    reads the dependencies named in a requirements.txt file. Each line is
    stripped, cut at its first `#`, skipped when nothing is left, and matched
    against `_deps_regex`; one line that does not match makes the whole result
    the empty dict. */
module InferFromRequirementstxt {
  import opened Wrappers
  import opened Text
  import opened DepTable
  import opened DockerfileGrammar
  import InferExtraDependencies

  // ---------------------------------------------------------------------------
  // `_deps_regex`:
  // `^(?P<name>[\d\w._-]+)(?: ?[<=>]+ ?(?P<version>[\d\w._-]+)(?:, ?<=? ?[\d._-]+)?)?$`
  // The name and the version are followed only by characters outside their
  // class (a space, an operator, a comma or the end), the operators only by a
  // space or a version character, and each optional space or `=` only by
  // something that cannot stand in its place, so the greedy reading is the match.
  // ---------------------------------------------------------------------------

  /** `[\d._-]`: the characters of an upper bound. */
  predicate IsBoundChar(c: char) { IsDigit(c) || c == '.' || c == '_' || c == '-' }

  /** `=?` */
  function OptEquals(s: string): (r: string)
    ensures r == s || (s != [] && s[0] == '=' && r == s[1..])
  {
    if s != [] && s[0] == '=' then s[1..] else s
  }

  /** `, ?<=? ?[\d._-]+$`: the upper bound after a pinned version. */
  predicate IsBound(s: string)
    ensures IsBound(s) ==> 3 <= |s| && s[0] == ',' && !AtEnd(s)
  {
    match Expect(s, ",")
    case None => false
    case Some(a) =>
      var b := OptSpace(a);
      b != [] && b[0] == '<' &&
        var c := OptSpace(OptEquals(b[1..]));
        var m := Span(c, IsBoundChar);
        m > 0 && AtEnd(c[m..])
  }

  /** What the pattern captures after the name: None when the rest does not
      match, Some(None) for a bare name, Some(Some(v)) for a pinned version. */
  function RequirementRest(rest: string): (r: Option<Option<string>>)
    ensures r.Some? && r.value.Some? ==> IsName(r.value.value)
  {
    if AtEnd(rest) then Some(None)
    else
      var a := OptSpace(rest);
      var k := Span(a, IsOpChar);
      if k == 0 then None
      else
        var v := OptSpace(a[k..]);
        var m := Span(v, IsNameChar);
        if m > 0 && (AtEnd(v[m..]) || IsBound(v[m..])) then Some(Some(v[..m])) else None
  }

  /** What the pattern captures from a cleaned line: the name, and the version
      when an operator and a version follow it. */
  function RequirementEntry(line: string): (r: Option<Entry>)
    ensures r.Some? ==> IsName(r.value.0) && r.value.0 <= line
    ensures r.Some? && r.value.1.Some? ==> IsName(r.value.1.value)
    ensures line != [] && !IsNameChar(line[0]) ==> r.None?
  {
    var n := Span(line, IsNameChar);
    if n == 0 then None
    else
      match RequirementRest(line[n..])
      case None => None
      case Some(v) => Some((line[..n], v))
  }

  // Partners of the pattern: the lines it reads back, and those it refuses.

  /** After a whole name, the entry is the name paired with what the rest yields. */
  lemma RequirementAfterName(name: string, rest: string)
    requires IsName(name) && (rest == [] || !IsNameChar(rest[0]))
    ensures RequirementEntry(name + rest) ==
      match RequirementRest(rest)
      case None => None
      case Some(v) => Some((name, v))
  {
    SpanConcat(name, rest, IsNameChar);
  }

  /** A name alone is an unpinned requirement. */
  lemma BareRequirement(name: string)
    requires IsName(name)
    ensures RequirementEntry(name) == Some((name, None))
  {
    assert name + "" == name;
    RequirementAfterName(name, "");
  }

  /** The operator run ends where the version (or its leading space) starts. */
  lemma AfterOperator(op: string, gap: string, version: string, after: string)
    requires gap == "" || gap == " "
    requires op != [] && All(op, IsOpChar) && IsName(version)
    requires after == [] || !IsNameChar(after[0])
    ensures var a := op + (gap + (version + after));
      Span(a, IsOpChar) == |op| && OptSpace(a[|op|..]) == version + after
    ensures Span(version + after, IsNameChar) == |version|
    ensures (version + after)[..|version|] == version && (version + after)[|version|..] == after
  {
    var t := gap + (version + after);
    assert t[0] == ' ' || t[0] == version[0];
    assert IsNameChar(version[0]);
    SpanConcat(op, t, IsOpChar);
    SpanConcat(version, after, IsNameChar);
  }

  /** `<op><version>` with optional single spaces around the operator, then an
      end or an upper bound, yields the version. */
  lemma PinnedRest(gap1: string, op: string, gap2: string, version: string, after: string)
    requires gap1 == "" || gap1 == " "
    requires gap2 == "" || gap2 == " "
    requires op != [] && All(op, IsOpChar) && IsName(version)
    requires (after == [] || !IsNameChar(after[0])) && (AtEnd(after) || IsBound(after))
    ensures RequirementRest(gap1 + (op + (gap2 + (version + after)))) == Some(Some(version))
  {
    var a := op + (gap2 + (version + after));
    assert OptSpace(gap1 + a) == a && !AtEnd(gap1 + a) by {
      assert |gap1 + a| >= 2;
    }
    AfterOperator(op, gap2, version, after);
  }

  /** `, <bound>` as the pattern's upper bound. */
  lemma UpperBound(bound: string)
    requires bound != [] && All(bound, IsBoundChar)
    ensures IsBound(",<" + bound) && !IsNameChar((",<" + bound)[0])
  {
    var s := ",<" + bound;
    assert s == "," + ("<" + bound);
    ExpectConcat(",", "<" + bound);
    assert ("<" + bound)[1..] == bound;
    assert IsBoundChar(bound[0]);
    assert bound + "" == bound;
    SpanConcat(bound, "", IsBoundChar);
  }

  /** `name<op>version` and `name <op> version` are read back. */
  lemma PinnedRequirement(name: string, op: string, version: string, spaced: bool)
    requires IsName(name) && op != [] && All(op, IsOpChar) && IsName(version)
    ensures var gap := if spaced then " " else "";
      RequirementEntry(name + gap + op + gap + version) == Some((name, Some(version)))
  {
    var gap := if spaced then " " else "";
    var rest := gap + (op + (gap + (version + "")));
    assert name + gap + op + gap + version == name + rest;
    assert !IsNameChar(rest[0]) by { assert rest[0] == ' ' || rest[0] == op[0]; }
    PinnedRest(gap, op, gap, version, "");
    RequirementAfterName(name, rest);
  }

  /** `<op>version,<bound>` after the name yields the version. */
  lemma BoundedRest(op: string, version: string, bound: string)
    requires op != [] && All(op, IsOpChar) && IsName(version)
    requires bound != [] && All(bound, IsBoundChar)
    ensures RequirementRest(op + (version + (",<" + bound))) == Some(Some(version))
  {
    var after := ",<" + bound;
    assert op + (version + after) == "" + (op + ("" + (version + after)));
    UpperBound(bound);
    PinnedRest("", op, "", version, after);
  }

  /** `name<op>version,<bound>` keeps the version and drops the bound. */
  lemma BoundedRequirement(name: string, op: string, version: string, bound: string)
    requires IsName(name) && op != [] && All(op, IsOpChar) && IsName(version)
    requires bound != [] && All(bound, IsBoundChar)
    ensures RequirementEntry(name + (op + (version + (",<" + bound)))) == Some((name, Some(version)))
  {
    var rest := op + (version + (",<" + bound));
    BoundedRest(op, version, bound);
    assert rest[0] == op[0];
    RequirementAfterName(name, rest);
  }

  /** Anything after the name that is neither a space, an operator of `[<=>]`
      nor the end makes the line fail: `~=`, `!=`, extras `[...]`, markers `;`
      and URLs `@`. */
  lemma UnknownOperatorRejected(name: string, rest: string)
    requires IsName(name) && rest != [] && !IsNameChar(rest[0])
    requires !IsOpChar(rest[0]) && rest[0] != ' ' && rest[0] != '\n'
    ensures RequirementEntry(name + rest) == None
  {
    RequirementAfterName(name, rest);
    assert Span(rest, IsOpChar) == 0;
  }

  /** The text of a line that reaches the pattern: stripped, then cut at its
      first `#`. As written the cut is not stripped again, so the spaces before
      an inline comment stay. */
  function Clean(line: string, corrected: bool): (r: string)
    ensures '#' !in r
    ensures corrected ==> IsStripped(r)
  {
    var cut := Before(Strip(line), '#');
    if corrected then Strip(cut) else cut
  }

  function Cleaner(corrected: bool): string -> string {
    line => Clean(line, corrected)
  }

  /** The cleaned lines that are not empty, in order: the lines the loop matches. */
  function Kept(lines: seq<string>, clean: string -> string): (r: seq<string>)
    ensures |r| <= |lines|
    ensures forall j :: 0 <= j < |r| ==> r[j] != ""
  {
    if lines == [] then []
    else
      var n := |lines| - 1;
      var line := clean(lines[n]);
      Kept(lines[..n], clean) + (if line == "" then [] else [line])
  }

  /** Lines read separately are kept in order: the kept lines of a file are
      those of its first part followed by those of the rest. */
  lemma {:induction false} KeptAppend(a: seq<string>, b: seq<string>, clean: string -> string)
    ensures Kept(a + b, clean) == Kept(a, clean) + Kept(b, clean)
    decreases |b|
  {
    if b == [] {
      assert a + b == a;
    } else {
      var n := |b| - 1;
      assert (a + b)[..|a + b| - 1] == a + b[..n];
      KeptAppend(a, b[..n], clean);
    }
  }

  lemma KeptOne(raw: string, clean: string -> string)
    ensures Kept([raw], clean) == if clean(raw) == "" then [] else [clean(raw)]
  {
    assert [raw][..0] == [];
  }

  lemma KeptSnoc(lines: seq<string>, i: nat, clean: string -> string)
    requires i < |lines|
    ensures Kept(lines[..i + 1], clean) == Kept(lines[..i], clean) + Kept([lines[i]], clean)
  {
    assert lines[..i + 1] == lines[..i] + [lines[i]];
    KeptAppend(lines[..i], [lines[i]], clean);
  }

  lemma KeptSplit(lines: seq<string>, i: nat, clean: string -> string)
    requires i <= |lines|
    ensures Kept(lines, clean) == Kept(lines[..i], clean) + Kept(lines[i..], clean)
  {
    assert lines == lines[..i] + lines[i..];
    KeptAppend(lines[..i], lines[i..], clean);
  }

  /** A line is kept exactly when something is left of it after cleaning. */
  lemma {:induction false} KeptMembers(lines: seq<string>, clean: string -> string, x: string)
    ensures x in Kept(lines, clean) <==> x != "" && exists i :: 0 <= i < |lines| && clean(lines[i]) == x
    decreases |lines|
  {
    if lines != [] {
      var n := |lines| - 1;
      var p := lines[..n];
      KeptMembers(p, clean, x);
      assert forall i :: 0 <= i < n ==> p[i] == lines[i];
      assert (exists i :: 0 <= i < |lines| && clean(lines[i]) == x)
        <==> (exists i :: 0 <= i < n && clean(p[i]) == x) || clean(lines[n]) == x;
    }
  }

  /** What `infer_dependencies` returns: the keep-first dict of the entries of
      the kept lines, or the empty dict when one of them does not match. */
  function RequirementsDependencies(content: string, corrected: bool): (r: Table)
    ensures NoDupKeys(r)
    ensures var kept := Kept(SplitLines(content), Cleaner(corrected));
      (exists i :: 0 <= i < |kept| && RequirementEntry(kept[i]).None?) ==> r == []
  {
    InferExtraDependencies.Collect(Kept(SplitLines(content), Cleaner(corrected)), RequirementEntry)
  }

  /** One line that does not match empties the whole result, whatever follows. */
  lemma ParseEachPrefixNone(a: seq<string>, b: seq<string>, parse: string -> Option<Entry>)
    requires InferExtraDependencies.ParseEach(a, parse).None?
    ensures InferExtraDependencies.ParseEach(a + b, parse).None?
  {
    var i :| 0 <= i < |a| && parse(a[i]).None?;
    assert (a + b)[i] == a[i];
  }

  /** `-r other.txt`, the include line, is read as the name `-r` followed by
      text that is no operator, so it fails. */
  lemma IncludeLineRejected(file: string)
    requires file == [] || !IsOpChar(file[0])
    ensures RequirementEntry("-r " + file) == None
  {
    assert IsName("-r") by { assert IsNameChar("-r"[0]) && IsNameChar("-r"[1]); }
    assert "-r " + file == "-r" + (" " + file);
    RequirementAfterName("-r", " " + file);
    assert OptSpace(" " + file) == file;
    assert Span(file, IsOpChar) == 0;
  }

  // `str.strip()` followed by `split("#", 1)[0]`: the cut is not stripped again.

  /** A stripped line without its last space. */
  lemma StripOneTrailingSpace(name: string)
    requires IsName(name)
    ensures Strip(name + " ") == name
  {
    var s := name + " ";
    assert !IsSpace(s[0]) by { assert s[0] == name[0] && IsNameChar(name[0]); }
    assert Span(s, IsSpace) == 0;
    assert s[..|s| - 1] == name;
    assert !IsSpace(name[|name| - 1]) by { assert IsNameChar(name[|name| - 1]); }
    assert TrailingSpace(name) == 0;
    assert TrailingSpace(s) == 1;
  }

  /** `name #comment`: as written the space before the comment stays; corrected,
      it goes. */
  lemma CommentCut(name: string, comment: string)
    requires IsName(name) && comment != [] && !IsSpace(comment[|comment| - 1])
    ensures Clean(name + " #" + comment, false) == name + " "
    ensures Clean(name + " #" + comment, true) == name
  {
    var s := name + " #" + comment;
    assert IsStripped(s) by {
      assert s[0] == name[0] && IsNameChar(name[0]);
      assert s[|s| - 1] == comment[|comment| - 1];
    }
    assert s == (name + " ") + ['#'] + comment;
    assert '#' !in name + " " by {
      forall k | 0 <= k < |name| ensures name[k] != '#' { assert IsNameChar(name[k]); }
    }
    BeforeFirst(name + " ", '#', comment);
    StripOneTrailingSpace(name);
  }

  /** A requirement with an inline comment leaves `name ` to the pattern, whose
      `$` refuses the space: the file's whole result is the empty dict. */
  lemma InlineCommentDropsAll(name: string, comment: string)
    requires IsName(name) && comment != [] && !IsSpace(comment[|comment| - 1]) && NoLineBreak(comment)
    ensures RequirementsDependencies(name + " #" + comment, false) == []
  {
    CommentKept(name, comment);
    SpacedNameRejected(name);
  }

  /** The line with its comment cut, as the loop sees it. */
  lemma CommentKept(name: string, comment: string)
    requires IsName(name) && comment != [] && !IsSpace(comment[|comment| - 1]) && NoLineBreak(comment)
    ensures Kept(SplitLines(name + " #" + comment), Cleaner(false)) == [name + " "]
  {
    LineOfComment(name, comment);
    CommentCut(name, comment);
    KeptOne(name + " #" + comment, Cleaner(false));
  }

  /** A name followed by a space does not match. */
  lemma SpacedNameRejected(name: string)
    requires IsName(name)
    ensures RequirementEntry(name + " ") == None
  {
    RequirementAfterName(name, " ");
  }

  /** With the cut stripped again, the same line reads as the unpinned name. */
  lemma InlineCommentCorrected(name: string, comment: string)
    requires IsName(name) && comment != [] && !IsSpace(comment[|comment| - 1]) && NoLineBreak(comment)
    ensures RequirementsDependencies(name + " #" + comment, true) == [(name, None)]
  {
    var s := name + " #" + comment;
    assert Kept(SplitLines(s), Cleaner(true)) == [name] by {
      LineOfComment(name, comment);
      CommentCut(name, comment);
      KeptOne(s, Cleaner(true));
    }
    BareRequirement(name);
    CollectOne(name, RequirementEntry);
  }

  /** A single line that parses gives the dict of its one entry. */
  lemma CollectOne(line: string, parse: string -> Option<Entry>)
    requires parse(line).Some?
    ensures InferExtraDependencies.Collect([line], parse) == [parse(line).value]
  {
    var e := parse(line).value;
    assert [line][..0] == [];
    var es := InferExtraDependencies.ParseEach([line], parse);
    assert es.Some? && |es.value| == 1 && es.value[0] == e;
    assert es.value == [e];
    var one: Table := [e];
    assert one[..0] == [];
    assert MergeTables([], one) == Put([], e.0, e.1);
  }

  lemma LineOfComment(name: string, comment: string)
    requires IsName(name) && comment != [] && NoLineBreak(comment)
    ensures SplitLines(name + " #" + comment) == [name + " #" + comment]
  {
    var s := name + " #" + comment;
    assert NoLineBreak(s) by {
      forall k | 0 <= k < |s| ensures !IsLineBreak(s[k]) {
        if k < |name| { assert IsNameChar(name[k]); }
        else if k >= |name| + 2 { assert s[k] == comment[k - |name| - 2]; }
      }
    }
    SplitOneLine(s);
  }

  class InferFromRequirementstxt {
    const fileContent: string

    constructor (content: string)
      ensures fileContent == content
    {
      fileContent := content;
    }

    /** `InferFromRequirementstxt(file_path)`: the base class's file check, then
        the file must be named exactly "requirements.txt". */
    static method Open(fileName: string, present: bool, isFile: bool, content: string)
      returns (r: Result<InferFromRequirementstxt>)
      ensures r.Err? <==> !present || !isFile || fileName != "requirements.txt"
      ensures r.Err? ==> r.error == ValueError
      ensures r.Ok? ==> fresh(r.value) && r.value.fileContent == content
    {
      var base := InferExtraDependencies.InferExtraDependencies.Open(present, isFile, content);
      if base.Err? {
        return Err(base.error);
      }
      if fileName != "requirements.txt" {
        return Err(ValueError);
      }
      var p := new InferFromRequirementstxt(base.value.fileContent);
      return Ok(p);
    }

    /** `infer_dependencies`, as written. */
    method InferDependencies() returns (result: Table)
      ensures result == RequirementsDependencies(fileContent, false)
    {
      var lines := SplitLines(fileContent);
      result := ParseLines(lines, RequirementEntry);
    }

    /** The loop of `infer_dependencies` over the file's lines, for a line
        pattern `parse` (`_deps_regex.match`). */
    static method ParseLines(lines: seq<string>, parse: string -> Option<Entry>) returns (result: Table)
      ensures result == InferExtraDependencies.Collect(Kept(lines, Cleaner(false)), parse)
    {
      ghost var clean := Cleaner(false);
      result := [];
      for i := 0 to |lines|
        invariant InferExtraDependencies.ParseEach(Kept(lines[..i], clean), parse).Some?
        invariant result == MergeTables([], InferExtraDependencies.ParseEach(Kept(lines[..i], clean), parse).value)
      {
        ghost var kept := Kept(lines[..i], clean);
        KeptSnoc(lines, i, clean);
        KeptOne(lines[i], clean);
        var line := Strip(lines[i]);
        line := Before(line, '#');
        assert clean(lines[i]) == line;
        if line == "" {
          assert kept + [] == kept;
          continue;
        }
        var matched;
        result, matched := PutLine(result, line, parse, kept);
        if !matched {
          assert InferExtraDependencies.ParseEach(Kept(lines, clean), parse).None? by {
            KeptSplit(lines, i + 1, clean);
            ParseEachPrefixNone(Kept(lines[..i + 1], clean), Kept(lines[i + 1..], clean), parse);
          }
          return [];
        }
      }
      assert lines[..|lines|] == lines;
    }

    /** The match of one kept line and the keep-first insert of its entry. */
    static method PutLine(result: Table, line: string, parse: string -> Option<Entry>, ghost kept: seq<string>)
      returns (result': Table, matched: bool)
      requires InferExtraDependencies.ParseEach(kept, parse).Some?
      requires result == MergeTables([], InferExtraDependencies.ParseEach(kept, parse).value)
      ensures matched <==> InferExtraDependencies.ParseEach(kept + [line], parse).Some?
      ensures matched ==> result' == MergeTables([], InferExtraDependencies.ParseEach(kept + [line], parse).value)
    {
      assert (kept + [line])[..|kept|] == kept;
      var m := parse(line);
      if m.None? {
        return [], false;
      }
      var name, version := m.value.0, m.value.1;
      PutByAssign(result, name, version);
      result' := result;
      if name !in Keys(result) || Get(result, name).value.None? {
        result' := Assign(result, name, version);
      }
      matched := true;
    }
  }
}
