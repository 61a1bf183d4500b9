/** `InferFromPipfile` (pyexec/dependencyInference/inferFromPipfile.py): splits
    a Pipfile into its `[section]`s and reads the `packages` section, one
    `name = "<op><version>"` or `name = "*"` line per dependency. */
module InferFromPipfile {
  import opened Wrappers
  import opened Text
  import opened DepTable
  import opened DockerfileGrammar
  import InferExtraDependencies

  // ---------------------------------------------------------------------------
  // `_section_regex`: `^\[+(?P<section>[\w\d._-]+)\]+$`
  // ---------------------------------------------------------------------------

  predicate IsOpenBracket(c: char) { c == '[' }
  predicate IsCloseBracket(c: char) { c == ']' }

  /** The section a header line names. No character of the name class is a
      bracket, so each of the three greedy runs is the whole run. */
  function SectionHeader(line: string): (r: Option<string>)
    ensures r.Some? ==> IsName(r.value) && line != [] && line[0] == '['
  {
    var a := Span(line, IsOpenBracket);
    var rest := line[a..];
    var n := Span(rest, IsNameChar);
    var close := rest[n..];
    var b := Span(close, IsCloseBracket);
    if a > 0 && n > 0 && b > 0 && AtEnd(close[b..]) then
      assert IsOpenBracket(line[..a][0]);
      Some(rest[..n])
    else None
  }

  /** Any number of `[`, a name, any number of `]`: the header names that section
      (so `[[source]]` opens "source"). */
  lemma HeaderRoundTrip(opens: string, name: string, closes: string)
    requires opens != [] && All(opens, IsOpenBracket)
    requires IsName(name)
    requires closes != [] && All(closes, IsCloseBracket)
    ensures SectionHeader(opens + name + closes) == Some(name)
  {
    var line := opens + name + closes;
    assert line[..|opens|] == opens;
    SpanIs(line, IsOpenBracket, |opens|);
    var rest := line[|opens|..];
    assert rest == name + closes;
    assert rest[..|name|] == name;
    SpanIs(rest, IsNameChar, |name|);
    var close := rest[|name|..];
    assert close == closes;
    assert close[..|closes|] == closes;
    SpanIs(close, IsCloseBracket, |closes|);
    assert close[|closes|..] == "";
  }

  lemma DoubleBracketHeader()
    ensures SectionHeader("[[source]]") == Some("source")
  {
    var name := "source";
    assert All(name, IsNameChar) by {
      forall k | 0 <= k < |name| ensures IsNameChar(name[k]) {
        assert IsAsciiLetter(name[k]);
      }
    }
    assert "[[source]]" == "[[" + name + "]]";
    HeaderRoundTrip("[[", name, "]]");
  }

  // ---------------------------------------------------------------------------
  // `_find_sections`, over the stripped lines of the file. The header
  // recogniser is a parameter, so that none of this depends on its details.
  // ---------------------------------------------------------------------------

  /** str.strip() applied to every line. */
  function StripAll(lines: seq<string>): (r: seq<string>)
    ensures |r| == |lines| && forall i :: 0 <= i < |lines| ==> r[i] == Strip(lines[i])
  {
    seq(|lines|, i requires 0 <= i < |lines| => Strip(lines[i]))
  }

  lemma StripAllStep(lines: seq<string>, i: nat)
    requires i < |lines|
    ensures StripAll(lines[..i + 1]) == StripAll(lines[..i]) + [Strip(lines[i])]
  {
  }

  /** The section a stripped line opens: blank lines are skipped before the
      header pattern is tried. */
  function Opens(line: string, header: string -> Option<string>): (r: Option<string>)
    ensures r.Some? ==> line != "" && r == header(line)
  {
    if line == "" then None else header(line)
  }

  /** A stripped line filed under the current section: neither blank nor a header. */
  predicate IsContent(line: string, header: string -> Option<string>) {
    line != "" && header(line).None?
  }

  /** The section in force after the given lines: the one named by the last
      header among them, if any. */
  function CurrentSection(lines: seq<string>, header: string -> Option<string>): (r: Option<string>)
    ensures r.None? <==> forall i :: 0 <= i < |lines| ==> Opens(lines[i], header).None?
  {
    if lines == [] then None
    else
      var n := |lines| - 1;
      assert forall i :: 0 <= i < n ==> lines[..n][i] == lines[i];
      if Opens(lines[n], header).Some? then Opens(lines[n], header) else CurrentSection(lines[..n], header)
  }

  /** The content lines whose nearest preceding header names section k, in order. */
  function SectionLines(lines: seq<string>, k: string, header: string -> Option<string>): seq<string> {
    if lines == [] then []
    else
      var n := |lines| - 1;
      SectionLines(lines[..n], k, header) +
        (if IsContent(lines[n], header) && CurrentSection(lines[..n], header) == Some(k) then [lines[n]] else [])
  }

  /** The names of all headers among the lines. */
  function HeaderNames(lines: seq<string>, header: string -> Option<string>): set<string> {
    set i | 0 <= i < |lines| && Opens(lines[i], header).Some? :: Opens(lines[i], header).value
  }

  /** The dict `_find_sections` returns: each section that received a line,
      mapped to its lines. Lines before the first header belong to no section. */
  function Sections(lines: seq<string>, header: string -> Option<string>): (r: map<string, seq<string>>)
    ensures forall k :: k in r <==> SectionLines(lines, k, header) != []
    ensures forall k :: k in r ==> r[k] == SectionLines(lines, k, header)
  {
    AllSectionLinesNamed(lines, header);
    map k | k in HeaderNames(lines, header) && SectionLines(lines, k, header) != [] :: SectionLines(lines, k, header)
  }

  /** The same dict built line by line, as `_find_sections` builds it: a content
      line under a section is appended to that section's list, which is created
      when new. */
  function FoundSections(lines: seq<string>, header: string -> Option<string>): (r: map<string, seq<string>>)
    ensures forall k :: k in r ==> r[k] != [] && k in HeaderNames(lines, header)
  {
    if lines == [] then map[]
    else
      var n := |lines| - 1;
      assert lines == lines[..n] + [lines[n]];
      HeaderNamesSnoc(lines[..n], lines[n], header);
      CurrentSectionNamed(lines[..n], header);
      var found := FoundSections(lines[..n], header);
      var current := CurrentSection(lines[..n], header);
      if IsContent(lines[n], header) && current.Some? then
        var k := current.value;
        found[k := (if k in found then found[k] else []) + [lines[n]]]
      else found
  }

  /** The sections of a Pipfile's text. */
  function FileSections(content: string): (r: map<string, seq<string>>)
    ensures r == Sections(StripAll(SplitLines(content)), SectionHeader)
  {
    FoundSectionsAreSections(StripAll(SplitLines(content)), SectionHeader);
    FoundSections(StripAll(SplitLines(content)), SectionHeader)
  }

  lemma HeaderNamesSnoc(p: seq<string>, l: string, header: string -> Option<string>)
    ensures HeaderNames(p + [l], header) ==
      HeaderNames(p, header) + (if Opens(l, header).Some? then {Opens(l, header).value} else {})
  {
    var q := p + [l];
    assert forall i :: 0 <= i < |p| ==> q[i] == p[i];
    assert q[|p|] == l;
  }

  lemma {:induction false} CurrentSectionNamed(lines: seq<string>, header: string -> Option<string>)
    ensures CurrentSection(lines, header).Some? ==> CurrentSection(lines, header).value in HeaderNames(lines, header)
    decreases |lines|
  {
    if lines != [] {
      var n := |lines| - 1;
      assert lines == lines[..n] + [lines[n]];
      HeaderNamesSnoc(lines[..n], lines[n], header);
      CurrentSectionNamed(lines[..n], header);
    }
  }

  /** Only a named section can hold lines. */
  lemma {:induction false} SectionLinesNamed(lines: seq<string>, k: string, header: string -> Option<string>)
    ensures SectionLines(lines, k, header) != [] ==> k in HeaderNames(lines, header)
    decreases |lines|
  {
    if lines != [] {
      var n := |lines| - 1;
      assert lines == lines[..n] + [lines[n]];
      HeaderNamesSnoc(lines[..n], lines[n], header);
      SectionLinesNamed(lines[..n], k, header);
      CurrentSectionNamed(lines[..n], header);
    }
  }

  /** Every section that received a line is named by some header. */
  lemma AllSectionLinesNamed(lines: seq<string>, header: string -> Option<string>)
    ensures forall k :: SectionLines(lines, k, header) != [] ==> k in HeaderNames(lines, header)
  {
    forall k | SectionLines(lines, k, header) != [] ensures k in HeaderNames(lines, header) {
      SectionLinesNamed(lines, k, header);
    }
  }

  lemma CurrentSectionSnoc(p: seq<string>, l: string, header: string -> Option<string>)
    ensures CurrentSection(p + [l], header) == if Opens(l, header).Some? then Opens(l, header) else CurrentSection(p, header)
  {
    assert (p + [l])[..|p|] == p;
  }

  lemma SectionLinesSnoc(p: seq<string>, l: string, k: string, header: string -> Option<string>)
    ensures SectionLines(p + [l], k, header) == SectionLines(p, k, header) +
      (if IsContent(l, header) && CurrentSection(p, header) == Some(k) then [l] else [])
  {
    assert (p + [l])[..|p|] == p;
  }

  /** A content line under a section is appended to that section's list, which
      is created when it is new. */
  lemma SectionsSnocContent(p: seq<string>, l: string, header: string -> Option<string>)
    requires IsContent(l, header) && CurrentSection(p, header).Some?
    ensures var k := CurrentSection(p, header).value;
      Sections(p + [l], header) ==
        Sections(p, header)[k := (if k in Sections(p, header) then Sections(p, header)[k] else []) + [l]]
  {
    var q := p + [l];
    HeaderNamesSnoc(p, l, header);
    var before := Sections(p, header);
    var after := Sections(q, header);
    var k0 := CurrentSection(p, header).value;
    CurrentSectionNamed(p, header);
    forall k ensures SectionLines(q, k, header) == SectionLines(p, k, header) + (if k == k0 then [l] else []) {
      SectionLinesSnoc(p, l, k, header);
    }
    var expected := before[k0 := (if k0 in before then before[k0] else []) + [l]];
    forall k ensures (k in after <==> k in expected) && (k in after ==> after[k] == expected[k]) {
      if k != k0 {
        assert SectionLines(q, k, header) == SectionLines(p, k, header);
      }
    }
    assert after == expected;
  }

  /** Any other line, blank, header or outside every section, leaves the dict
      as it is. */
  lemma SectionsSnocOther(p: seq<string>, l: string, header: string -> Option<string>)
    requires !IsContent(l, header) || CurrentSection(p, header).None?
    ensures Sections(p + [l], header) == Sections(p, header)
  {
    var q := p + [l];
    HeaderNamesSnoc(p, l, header);
    var before := Sections(p, header);
    var after := Sections(q, header);
    forall k ensures SectionLines(q, k, header) == SectionLines(p, k, header) {
      SectionLinesSnoc(p, l, k, header);
    }
    assert forall k :: k in after <==> k in before;
    assert forall k :: k in after ==> after[k] == before[k];
  }

  /** Building the dict line by line gives, for each section, exactly the
      content lines whose nearest preceding header names it, in order. */
  lemma {:induction false} FoundSectionsAreSections(lines: seq<string>, header: string -> Option<string>)
    ensures FoundSections(lines, header) == Sections(lines, header)
    decreases |lines|
  {
    if lines == [] {
      assert Sections(lines, header) == map[];
    } else {
      var n := |lines| - 1;
      var p, l := lines[..n], lines[n];
      assert lines == p + [l];
      FoundSectionsAreSections(p, header);
      if IsContent(l, header) && CurrentSection(p, header).Some? {
        SectionsSnocContent(p, l, header);
      } else {
        SectionsSnocOther(p, l, header);
      }
    }
  }

  /** Once a header has been seen, what came before it no longer matters. */
  lemma {:induction false} CurrentSectionAfter(a: seq<string>, b: seq<string>, header: string -> Option<string>)
    requires b != [] && Opens(b[0], header).Some?
    ensures CurrentSection(a + b, header) == CurrentSection(b, header)
    decreases |b|
  {
    var n := |b| - 1;
    assert (a + b)[..|a + b| - 1] == a + b[..n];
    if n > 0 && Opens(b[n], header).None? {
      CurrentSectionAfter(a, b[..n], header);
    } else if n == 0 {
      assert b[..0] == [];
    }
  }

  /** A header that comes back reopens its section: the lines after it are
      appended to what the section already held. */
  lemma {:induction false} ReopenedSectionAppends(a: seq<string>, b: seq<string>, k: string, header: string -> Option<string>)
    requires b != [] && Opens(b[0], header).Some?
    ensures SectionLines(a + b, k, header) == SectionLines(a, k, header) + SectionLines(b, k, header)
    decreases |b|
  {
    var n := |b| - 1;
    assert (a + b)[..|a + b| - 1] == a + b[..n];
    if n == 0 {
      assert a + b[..0] == a;
      assert b[..0] == [];
    } else {
      ReopenedSectionAppends(a, b[..n], k, header);
      CurrentSectionAfter(a, b[..n], header);
    }
  }

  /** Lines before the first header are dropped. */
  lemma {:induction false} PreambleDropped(pre: seq<string>, k: string, header: string -> Option<string>)
    requires forall i :: 0 <= i < |pre| ==> Opens(pre[i], header).None?
    ensures CurrentSection(pre, header) == None && SectionLines(pre, k, header) == []
    decreases |pre|
  {
    if pre != [] {
      var n := |pre| - 1;
      assert forall i :: 0 <= i < n ==> pre[..n][i] == pre[i];
      PreambleDropped(pre[..n], k, header);
    }
  }

  class InferFromPipfile {
    const fileContent: string

    constructor (content: string)
      ensures fileContent == content
    {
      fileContent := content;
    }

    /** `InferFromPipfile(file_path)`: the base class's file check, then the
        file must be named exactly "Pipfile". */
    static method Open(fileName: string, present: bool, isFile: bool, content: string)
      returns (r: Result<InferFromPipfile>)
      ensures r.Err? <==> !present || !isFile || fileName != "Pipfile"
      ensures r.Err? ==> r.error == ValueError
      ensures r.Ok? ==> fresh(r.value) && r.value.fileContent == content
    {
      var base := InferExtraDependencies.InferExtraDependencies.Open(present, isFile, content);
      if base.Err? {
        return Err(base.error);
      }
      if fileName != "Pipfile" {
        return Err(ValueError);
      }
      var p := new InferFromPipfile(base.value.fileContent);
      return Ok(p);
    }

    /** `_find_sections` */
    method FindSections() returns (sections: map<string, seq<string>>)
      ensures sections == FileSections(fileContent)
    {
      var lines := SplitLines(fileContent);
      sections := FindSectionsIn(lines, SectionHeader);
    }

    /** The loop of `_find_sections` over the file's lines, for a header pattern. */
    static method FindSectionsIn(lines: seq<string>, header: string -> Option<string>)
      returns (sections: map<string, seq<string>>)
      ensures sections == FoundSections(StripAll(lines), header)
    {
      ghost var seen: seq<string> := [];
      sections := map[];
      var section: Option<string> := None;
      for i := 0 to |lines|
        invariant seen == StripAll(lines[..i])
        invariant sections == FoundSections(seen, header)
        invariant section == CurrentSection(seen, header)
      {
        sections, section := FileLine(sections, section, lines[i], header, seen);
        StripAllStep(lines, i);
        seen := seen + [Strip(lines[i])];
      }
      assert lines[..|lines|] == lines;
    }

    /** The body of the loop of `_find_sections`, for one line. */
    static method FileLine(sections: map<string, seq<string>>, section: Option<string>, raw: string,
                           header: string -> Option<string>, ghost seen: seq<string>)
      returns (sections': map<string, seq<string>>, section': Option<string>)
      requires sections == FoundSections(seen, header) && section == CurrentSection(seen, header)
      ensures sections' == FoundSections(seen + [Strip(raw)], header)
      ensures section' == CurrentSection(seen + [Strip(raw)], header)
    {
      var line := Strip(raw);
      assert (seen + [line])[..|seen|] == seen;
      sections', section' := sections, section;
      if line == "" {
        return;
      }
      var matches := header(line);
      if matches.Some? {
        section' := matches;
      } else if section.Some? {
        var name := section.value;
        if name !in sections' {
          sections' := sections'[name := []];
        }
        sections' := sections'[name := sections'[name] + [line]];
      }
    }

    /** `infer_dependencies`, with the version class as written. */
    method InferDependencies() returns (r: Result<Table>)
      ensures r == PipfileDependencies(fileContent, false)
    {
      var sections := FindSections();
      if "packages" !in sections {
        return Err(KeyError);
      }
      var result := ParsePackages(sections["packages"]);
      assert Parser(false) == PipfileEntry;
      return Ok(result);
    }

    /** The loop of `infer_dependencies` over the lines of `packages`: the
        keep-first insert of each match, and the empty dict at the first line
        that does not match. */
    static method ParsePackages(deps: seq<string>) returns (result: Table)
      ensures result == InferExtraDependencies.Collect(deps, PipfileEntry)
    {
      result := [];
      for i := 0 to |deps|
        invariant InferExtraDependencies.ParseEach(deps[..i], PipfileEntry).Some?
        invariant result == MergeTables([], InferExtraDependencies.ParseEach(deps[..i], PipfileEntry).value)
      {
        InferExtraDependencies.ParseEachSnoc(deps, i, PipfileEntry);
        var m := PipfileEntry(deps[i]);
        if m.None? {
          assert InferExtraDependencies.ParseEach(deps, PipfileEntry).None?;
          return [];
        }
        var name, version := m.value.0, m.value.1;
        PutByAssign(result, name, version);
        if name !in Keys(result) || Get(result, name).value.None? {
          result := Assign(result, name, version);
        }
      }
      assert deps[..|deps|] == deps;
    }
  }

  // ---------------------------------------------------------------------------
  // `_version_regex`:
  // `^(?P<name>[\w\d._-]+) ?(?:= ?['"]?(?:[<=>]+ ?(?P<version>V+)| ?\* ?) ?["']?)?$`
  // with V the version class.
  // ---------------------------------------------------------------------------

  /** `[/d/w._-]` as written: the six characters `/ d w . _ -`, no digit. */
  predicate IsPipfileVersionChar(c: char) {
    c == '/' || c == 'd' || c == 'w' || c == '.' || c == '_' || c == '-'
  }

  predicate IsQuote(c: char) { c == '\'' || c == '"' }

  /** `['"]?` */
  function OptQuote(s: string): (r: string)
    ensures r == s || (s != [] && IsQuote(s[0]) && r == s[1..])
  {
    if s != [] && IsQuote(s[0]) then s[1..] else s
  }

  /** ` ?["']?$` */
  predicate IsTail(s: string) { AtEnd(OptQuote(OptSpace(s))) }

  /** ` ?\* ?` followed by the tail. */
  predicate IsStarTail(s: string) {
    var t := OptSpace(s);
    t != [] && t[0] == '*' && IsTail(OptSpace(t[1..]))
  }

  /** What the pattern captures as version after the name, if the rest matches.
      Each optional space or quote is taken greedily; giving one back could only
      leave a space or quote where an operator, `*` or the end is needed, so the
      greedy choice is the match. */
  function VersionPart(s: string, versionChar: char -> bool): (r: Option<Option<string>>)
    ensures r.Some? && r.value.Some? ==> r.value.value != [] && All(r.value.value, versionChar)
  {
    var r := OptSpace(s);
    if AtEnd(r) then Some(None)
    else
      match Expect(r, "=")
      case None => None
      case Some(a) =>
        var p := OptQuote(OptSpace(a));
        var k := Span(p, IsOpChar);
        if k > 0 then
          var v := OptSpace(p[k..]);
          var m := Span(v, versionChar);
          if m > 0 && IsTail(v[m..]) then Some(Some(v[..m])) else None
        else if IsStarTail(p) then Some(None)
        else None
  }

  function EntryWith(line: string, versionChar: char -> bool): (r: Option<Entry>)
    ensures r.Some? ==> IsName(r.value.0) && r.value.0 <= line
    ensures r.Some? && r.value.1.Some? ==> r.value.1.value != [] && All(r.value.1.value, versionChar)
    ensures line != [] && !IsNameChar(line[0]) ==> r.None?
  {
    var n := Span(line, IsNameChar);
    if n == 0 then None
    else
      match VersionPart(line[n..], versionChar)
      case None => None
      case Some(v) => Some((line[..n], v))
  }

  /** `_version_regex` as written. */
  function PipfileEntry(line: string): (r: Option<Entry>)
    ensures r.Some? ==> IsName(r.value.0)
    ensures r.Some? && r.value.1.Some? ==> r.value.1.value != [] && All(r.value.1.value, IsPipfileVersionChar)
    ensures line != [] && !IsNameChar(line[0]) ==> r.None?
  {
    EntryWith(line, IsPipfileVersionChar)
  }

  /** `_version_regex` with the evidently intended class `[\d\w._-]`. */
  function PipfileEntryCorrected(line: string): (r: Option<Entry>)
    ensures r.Some? ==> IsName(r.value.0)
    ensures r.Some? && r.value.1.Some? ==> IsName(r.value.1.value)
    ensures line != [] && !IsNameChar(line[0]) ==> r.None?
  {
    EntryWith(line, IsNameChar)
  }

  function Parser(corrected: bool): string -> Option<Entry> {
    if corrected then PipfileEntryCorrected else PipfileEntry
  }

  /** What `infer_dependencies` returns: KeyError without a `packages` section
      (the `is None` test never runs), otherwise the keep-first dict of its
      lines, or the empty dict when one of them does not match. */
  function PipfileDependencies(content: string, corrected: bool): (r: Result<Table>)
    ensures r.Err? <==> "packages" !in FileSections(content)
    ensures r.Err? ==> r.error == KeyError
    ensures r.Ok? ==> NoDupKeys(r.value)
    ensures r.Ok? ==>
      ((exists i :: 0 <= i < |FileSections(content)["packages"]| &&
          Parser(corrected)(FileSections(content)["packages"][i]).None?) ==> r.value == [])
  {
    var sections := FileSections(content);
    if "packages" !in sections then Err(KeyError)
    else Ok(InferExtraDependencies.Collect(sections["packages"], Parser(corrected)))
  }

  /** The characters a version class may hold for the pinned form to be read back. */
  predicate Separate(versionChar: char -> bool) {
    forall c :: versionChar(c) ==> !IsOpChar(c) && !IsQuote(c) && c != ' ' && c != '\n'
  }

  /** `name` alone and `name = "*"` map the name to None, whatever the version class. */
  lemma UnpinnedEntries(name: string, versionChar: char -> bool)
    requires IsName(name)
    ensures EntryWith(name, versionChar) == Some((name, None))
    ensures EntryWith(name + " = \"*\"", versionChar) == Some((name, None))
  {
    assert name[..|name|] == name;
    SpanIs(name, IsNameChar, |name|);
    var line := name + " = \"*\"";
    assert line[..|name|] == name;
    SpanIs(line, IsNameChar, |name|);
    assert line[|name|..] == " = \"*\"";
    assert "= \"*\"" == "=" + " \"*\"";
    ExpectConcat("=", " \"*\"");
    assert OptQuote(OptSpace(" \"*\"")) == "*\"";
    assert Span("*\"", IsOpChar) == 0;
    assert IsStarTail("*\"");
  }

  /** After a whole name, the entry is the name paired with what the rest yields. */
  lemma EntryAfterName(name: string, rest: string, versionChar: char -> bool)
    requires IsName(name) && rest != [] && !IsNameChar(rest[0])
    ensures EntryWith(name + rest, versionChar) ==
      match VersionPart(rest, versionChar)
      case None => None
      case Some(v) => Some((name, v))
  {
    var line := name + rest;
    assert line[..|name|] == name;
    SpanIs(line, IsNameChar, |name|);
    assert line[|name|..] == rest;
  }

  /** ` = "` is read as the assignment and its opening quote. */
  lemma QuotedAssignment(q: string)
    ensures !AtEnd(OptSpace(" = \"" + q))
    ensures Expect(OptSpace(" = \"" + q), "=") == Some(" \"" + q)
    ensures OptQuote(OptSpace(" \"" + q)) == q
  {
    var rest := " \"" + q;
    assert " = \"" + q == " " + ("=" + rest);
    SpaceSkipped("=" + rest);
    ExpectConcat("=", rest);
    assert rest == " " + ("\"" + q);
    SpaceSkipped("\"" + q);
  }

  lemma SpaceSkipped(t: string)
    ensures OptSpace(" " + t) == t
  {
    assert (" " + t)[1..] == t;
  }

  /** The rest ` = "<op><tail>` reaches the operator run. */
  lemma AssignedQuoted(op: string, tail: string, versionChar: char -> bool)
    requires op != [] && All(op, IsOpChar) && tail != [] && !IsOpChar(tail[0])
    ensures VersionPart(" = \"" + (op + tail), versionChar) ==
      var v := OptSpace(tail);
      var m := Span(v, versionChar);
      if m > 0 && IsTail(v[m..]) then Some(Some(v[..m])) else None
  {
    QuotedAssignment(op + tail);
    SpanConcat(op, tail, IsOpChar);
  }

  /** A version whose characters are all in the class is read back whole. */
  lemma VersionRead(version: string, versionChar: char -> bool)
    requires version != [] && All(version, versionChar) && Separate(versionChar)
    ensures var v := OptSpace(version + "\"");
      var m := Span(v, versionChar);
      m > 0 && IsTail(v[m..]) && v[..m] == version
  {
    var v := version + "\"";
    assert versionChar(version[0]);
    assert OptSpace(v) == v;
    assert v[..|version|] == version;
    SpanIs(v, versionChar, |version|);
    assert v[|version|..] == "\"";
  }

  /** `name = "<op><version>"` gives the version back when all of its
      characters are in the class. */
  lemma PinnedEntry(name: string, op: string, version: string, versionChar: char -> bool)
    requires IsName(name) && op != [] && All(op, IsOpChar)
    requires version != [] && All(version, versionChar) && Separate(versionChar)
    ensures EntryWith(name + " = \"" + op + version + "\"", versionChar) == Some((name, Some(version)))
  {
    assert versionChar(version[0]);
    var tail := version + "\"";
    assert name + " = \"" + op + version + "\"" == name + (" = \"" + (op + tail));
    AssignedQuoted(op, tail, versionChar);
    VersionRead(version, versionChar);
    EntryAfterName(name, " = \"" + (op + tail), versionChar);
  }

  lemma NameCharsSeparate()
    ensures Separate(IsNameChar)
  {
  }

  /** With the intended class, a pinned version is read back. */
  lemma PinnedVersionCorrected(name: string, op: string, version: string)
    requires IsName(name) && op != [] && All(op, IsOpChar) && IsName(version)
    ensures PipfileEntryCorrected(name + " = \"" + op + version + "\"") == Some((name, Some(version)))
  {
    PinnedEntry(name, op, version, IsNameChar);
  }

  /** As written, a version that starts with a digit is never matched, so the
      line fails and with it the whole `packages` section. */
  lemma PinnedVersionRejected(name: string, op: string, version: string)
    requires IsName(name) && op != [] && All(op, IsOpChar)
    requires version != [] && IsDigit(version[0])
    ensures PipfileEntry(name + " = \"" + op + version + "\"") == None
  {
    var tail := version + "\"";
    assert tail[0] == version[0];
    assert name + " = \"" + op + version + "\"" == name + (" = \"" + (op + tail));
    AssignedQuoted(op, tail, IsPipfileVersionChar);
    assert Span(OptSpace(tail), IsPipfileVersionChar) == 0;
    EntryAfterName(name, " = \"" + (op + tail), IsPipfileVersionChar);
  }

  /** `requests = "==2.25.1"`, the usual form of a pinned Pipfile entry. */
  lemma RequestsPinRejected()
    ensures PipfileEntry("requests = \"==2.25.1\"") == None
    ensures PipfileEntryCorrected("requests = \"==2.25.1\"") == Some(("requests", Some("2.25.1")))
  {
    var name, op, version := "requests", "==", "2.25.1";
    assert IsName(name) by {
      forall k | 0 <= k < |name| ensures IsNameChar(name[k]) { assert IsAsciiLetter(name[k]); }
    }
    assert IsName(version) by {
      forall k | 0 <= k < |version| ensures IsNameChar(version[k]) { assert IsDigit(version[k]) || version[k] == '.'; }
    }
    assert All(op, IsOpChar);
    assert "requests = \"==2.25.1\"" == name + " = \"" + op + version + "\"";
    PinnedVersionRejected(name, op, version);
    PinnedVersionCorrected(name, op, version);
  }
}
