/** The build specification `Dependencies` of pyexec/util/dependencies.py: a
    Python version, the apt and pip package dicts, and optional COPY, WORKDIR and
    CMD lines, with the pseudo-Dockerfile reader and writer and the validated
    merge of several specifications.

    The pure functions below state what each operation computes; the class
    `Dependencies` further down holds the same state in fields and its methods,
    which change those fields step by step as the Python code does, are proved
    to compute these functions. */
module Dependencies {
  import opened Wrappers
  import opened Text
  import opened DepTable
  import opened DockerfileGrammar
  import Lists

  /** The state of one `Dependencies` instance. */
  datatype Spec = Spec(
    pythonVersion: string,
    apt: Table,
    pip: Table,
    copy: Option<string>,
    workdir: Option<string>,
    cmd: Option<string>)

  /** What `__init__` leaves behind once the FROM clause matched. */
  function Fresh(version: string): Spec { Spec(version, [], [], None, None, None) }

  /** What every instance satisfies: the version was captured by the FROM
      pattern, and the two tables are dicts. */
  predicate ValidSpec(s: Spec) {
    IsPythonVersion(s.pythonVersion) && NoDupKeys(s.apt) && NoDupKeys(s.pip)
  }

  /** `__init__`: the fresh specification, or InvalidFormatException. */
  function Init(fromClause: string): (r: Result<Spec>)
    ensures r.Ok? <==> FromClauseVersion(fromClause).Some?
    ensures r.Ok? ==> ValidSpec(r.value) && r.value == Fresh(FromClauseVersion(fromClause).value)
    ensures r.Err? ==> r.error == InvalidFormatException
  {
    match FromClauseVersion(fromClause)
    case None => Err(InvalidFormatException)
    case Some(v) => Ok(Fresh(v))
  }

  /** The effect of a recognised RUN line: `add_pip_dependency`,
      `add_apt_dependency`, or nothing. */
  function RunEffect(s: Spec, c: RunCommand): Spec {
    match c
    case PipInstall(n, v) => s.(pip := Put(s.pip, n, v))
    case AptInstall(n, v) => s.(apt := Put(s.apt, n, v))
    case _ => s
  }

  function Recognise(line: string, corrected: bool): Option<RunCommand> {
    if corrected then ParseRunCommandCorrected(line) else ParseRunCommand(line)
  }

  /** A line the loop of `from_dockerfile` raises on. */
  predicate IsInvalidLine(raw: string, corrected: bool) {
    var line := Strip(raw);
    line != "" && !("FROM" <= line) && Recognise(line, corrected).None?
      && !("COPY" <= line) && !("CMD" <= line) && !("WORKDIR" <= line)
  }

  /** One pass of the loop of `from_dockerfile` over a line. */
  function ApplyLine(s: Spec, raw: string, drop: bool, corrected: bool): (r: Result<Spec>)
    ensures r.Err? <==> IsInvalidLine(raw, corrected)
    ensures r.Err? ==> r.error == InvalidFormatException
    ensures r.Ok? ==> r.value.pythonVersion == s.pythonVersion
    ensures r.Ok? && ValidSpec(s) ==> ValidSpec(r.value)
    ensures r.Ok? && drop ==> r.value.copy == s.copy && r.value.workdir == s.workdir && r.value.cmd == s.cmd
  {
    var line := Strip(raw);
    if line == "" || "FROM" <= line then Ok(s)
    else
      match Recognise(line, corrected)
      case Some(c) => Ok(RunEffect(s, c))
      case None =>
        if "COPY" <= line then Ok(if drop then s else s.(copy := Some(line)))
        else if "CMD" <= line then Ok(if drop then s else s.(cmd := Some(line)))
        else if "WORKDIR" <= line then Ok(if drop then s else s.(workdir := Some(line)))
        else Err(InvalidFormatException)
  }

  /** The whole loop of `from_dockerfile`, stopping at the first exception. */
  function ApplyLines(s: Spec, lines: seq<string>, drop: bool, corrected: bool): (r: Result<Spec>)
    ensures r.Ok? ==> r.value.pythonVersion == s.pythonVersion
    ensures r.Ok? && ValidSpec(s) ==> ValidSpec(r.value)
    ensures r.Ok? && drop ==> r.value.copy == s.copy && r.value.workdir == s.workdir && r.value.cmd == s.cmd
    ensures r.Err? ==> r.error == InvalidFormatException
  {
    if lines == [] then Ok(s)
    else
      var n := |lines| - 1;
      match ApplyLines(s, lines[..n], drop, corrected)
      case Err(e) => Err(e)
      case Ok(s') => ApplyLine(s', lines[n], drop, corrected)
  }

  /** The remaining lines applied after an earlier result. */
  function AndThen(r: Result<Spec>, lines: seq<string>, drop: bool, corrected: bool): Result<Spec> {
    match r
    case Err(e) => Err(e)
    case Ok(s) => ApplyLines(s, lines, drop, corrected)
  }

  lemma {:induction false} ApplyLinesAppend(s: Spec, xs: seq<string>, ys: seq<string>, drop: bool, corrected: bool)
    ensures ApplyLines(s, xs + ys, drop, corrected) == AndThen(ApplyLines(s, xs, drop, corrected), ys, drop, corrected)
    decreases |ys|
  {
    if ys == [] {
      assert xs + ys == xs;
    } else {
      var n := |ys| - 1;
      assert (xs + ys)[..|xs + ys| - 1] == xs + ys[..n];
      ApplyLinesAppend(s, xs, ys[..n], drop, corrected);
    }
  }

  /** The loop raises as soon as it reaches an invalid line, whatever came before it. */
  lemma ApplyLinesRejects(s: Spec, lines: seq<string>, drop: bool, corrected: bool, k: nat)
    requires k < |lines| && IsInvalidLine(lines[k], corrected)
    ensures ApplyLines(s, lines, drop, corrected) == Err(InvalidFormatException)
  {
    var upto, rest := lines[..k + 1], lines[k + 1..];
    assert upto[k] == lines[k];
    ApplyLinesRejectsLast(s, upto, drop, corrected);
    ApplyLinesAppend(s, upto, rest, drop, corrected);
    assert upto + rest == lines;
  }

  /** The loop after one more line. */
  lemma ApplyLinesStep(s: Spec, lines: seq<string>, i: nat, drop: bool, corrected: bool, t: Spec)
    requires i < |lines| && ApplyLines(s, lines[..i], drop, corrected) == Ok(t)
    ensures ApplyLines(s, lines[..i + 1], drop, corrected) == ApplyLine(t, lines[i], drop, corrected)
  {
    assert lines[..i + 1][..i] == lines[..i];
  }

  lemma ApplyLinesRejectsLast(s: Spec, lines: seq<string>, drop: bool, corrected: bool)
    requires lines != [] && IsInvalidLine(lines[|lines| - 1], corrected)
    ensures ApplyLines(s, lines, drop, corrected) == Err(InvalidFormatException)
  {
  }

  /** `from_dockerfile`, parameterised by the RUN grammar. */
  function ParseWith(dockerfile: string, drop: bool, corrected: bool): (r: Result<Spec>)
    ensures r.Ok? ==> ValidSpec(r.value)
    ensures r.Ok? ==> SplitLines(dockerfile) != [] && FromClauseVersion(SplitLines(dockerfile)[0]) == Some(r.value.pythonVersion)
    ensures r.Ok? && drop ==> r.value.copy.None? && r.value.workdir.None? && r.value.cmd.None?
    ensures r.Err? ==> r.error == InvalidFormatException
  {
    var df := SplitLines(dockerfile);
    if df == [] then Err(InvalidFormatException)
    else
      match FromClauseVersion(df[0])
      case None => Err(InvalidFormatException)
      case Some(v) => ApplyLines(Fresh(v), df, drop, corrected)
  }

  /** `Dependencies.from_dockerfile(dockerfile, drop_non_run_command)` as written. */
  function ParseDockerfile(dockerfile: string, drop: bool): (r: Result<Spec>)
    ensures r.Ok? ==> ValidSpec(r.value)
    ensures r.Ok? ==> SplitLines(dockerfile) != [] && FromClauseVersion(SplitLines(dockerfile)[0]) == Some(r.value.pythonVersion)
    ensures r.Err? ==> r.error == InvalidFormatException
  {
    ParseWith(dockerfile, drop, false)
  }

  /** `from_dockerfile` with a grammar that also accepts the pip self-upgrade line. */
  function ParseDockerfileCorrected(dockerfile: string, drop: bool): (r: Result<Spec>)
    ensures r.Ok? ==> ValidSpec(r.value)
    ensures r.Ok? ==> SplitLines(dockerfile) != [] && FromClauseVersion(SplitLines(dockerfile)[0]) == Some(r.value.pythonVersion)
    ensures r.Err? ==> r.error == InvalidFormatException
  {
    ParseWith(dockerfile, drop, true)
  }

  /** Empty text raises, and so does text whose first line is not a FROM clause. */
  lemma ParseRejectsMissingFrom(dockerfile: string, drop: bool)
    requires SplitLines(dockerfile) == [] || FromClauseVersion(SplitLines(dockerfile)[0]).None?
    ensures ParseDockerfile(dockerfile, drop) == Err(InvalidFormatException)
  {
  }

  /** One invalid line anywhere makes the whole text invalid: no partial result. */
  lemma ParseRejectsInvalidLine(dockerfile: string, drop: bool, k: nat)
    requires k < |SplitLines(dockerfile)| && IsInvalidLine(SplitLines(dockerfile)[k], false)
    ensures ParseDockerfile(dockerfile, drop) == Err(InvalidFormatException)
  {
    var df := SplitLines(dockerfile);
    if FromClauseVersion(df[0]).Some? {
      ApplyLinesRejects(Fresh(FromClauseVersion(df[0]).value), df, drop, false, k);
    }
  }

  // Serialisation.

  function AptLines(t: Table): (lines: seq<string>)
    ensures |lines| == |t|
  {
    if t == [] then [] else AptLines(t[..|t| - 1]) + [AptLine(t[|t| - 1].0, t[|t| - 1].1)]
  }

  function PipLines(t: Table): (lines: seq<string>)
    ensures |lines| == |t|
  {
    if t == [] then [] else PipLines(t[..|t| - 1]) + [PipLine(t[|t| - 1].0, t[|t| - 1].1)]
  }

  function OptLine(line: Option<string>): seq<string> {
    if line.Some? then [line.value] else []
  }

  function Directives(s: Spec): seq<string> {
    OptLine(s.copy) + OptLine(s.workdir) + OptLine(s.cmd)
  }

  const Header: seq<string> := [UpdateLine, UpgradeLine]

  /** The lines of `to_dockerfile`, in order, once "python-pip" is popped. */
  function RenderLines(s: Spec): (lines: seq<string>)
    ensures |lines| == 3 + |Remove(s.apt, "python-pip")| + |s.pip| + |Directives(s)|
    ensures lines[0] == FromLine(s.pythonVersion) && lines[1] == UpdateLine && lines[2] == UpgradeLine
  {
    [FromLine(s.pythonVersion)] + Header + AptLines(Remove(s.apt, "python-pip")) + PipLines(s.pip) + Directives(s)
  }

  /** `to_dockerfile`: every line followed by "\n". */
  function Serialize(s: Spec): (r: string)
    ensures r != [] && r[|r| - 1] == '\n'
    ensures Writable(s) ==> SplitLines(r) == RenderLines(s)
  {
    if Writable(s) then
      RenderLinesSingle(s);
      SplitTerminated(RenderLines(s));
      Terminated(RenderLines(s))
    else Terminated(RenderLines(s))
  }

  /** The state `to_dockerfile` leaves behind: "python-pip" is popped from the apt dict. */
  function AfterSerialize(s: Spec): (r: Spec)
    ensures "python-pip" !in Keys(r.apt)
    ensures ValidSpec(s) ==> ValidSpec(r) && |r.apt| <= |s.apt|
  {
    RemoveSize(s.apt, "python-pip");
    s.(apt := Remove(s.apt, "python-pip"))
  }

  /** Every entry of a table can be written and read back. */
  predicate WritableEntries(t: Table) {
    forall i :: 0 <= i < |t| ==> IsName(t[i].0) && IsOptVersion(t[i].1)
  }

  /** A directive that survives being written as a line and read back. */
  predicate WritableDirective(d: Option<string>, keyword: string) {
    d.Some? ==> keyword <= d.value && NoLineBreak(d.value) && Strip(d.value) == d.value
  }

  /** A specification `to_dockerfile` can write without breaking the line structure. */
  predicate Writable(s: Spec) {
    ValidSpec(s) && WritableEntries(s.apt) && WritableEntries(s.pip)
    && WritableDirective(s.copy, "COPY") && WritableDirective(s.workdir, "WORKDIR")
    && WritableDirective(s.cmd, "CMD")
  }

  /** What reading back the output of `to_dockerfile` should give. */
  function Reread(s: Spec, drop: bool): Spec {
    var popped := AfterSerialize(s);
    if drop then popped.(copy := None, workdir := None, cmd := None) else popped
  }

  // Reading back what `to_dockerfile` writes.

  lemma NoBreakConcat(a: string, b: string)
    requires NoLineBreak(a) && NoLineBreak(b)
    ensures NoLineBreak(a + b)
  {
    assert forall k :: 0 <= k < |a| ==> (a + b)[k] == a[k];
    assert forall k :: 0 <= k < |b| ==> (a + b)[|a| + k] == b[k];
  }

  lemma NameNoBreak(n: string, p: char -> bool)
    requires All(n, p) && forall c :: p(c) ==> IsVersionChar(c)
    ensures NoLineBreak(n)
  {
    forall k | 0 <= k < |n| ensures !IsLineBreak(n[k]) {
      assert p(n[k]);
    }
  }

  /** A line that splitlines() and strip() leave as it is. */
  predicate Clean(line: string) {
    line != [] && NoLineBreak(line) && Strip(line) == line
  }

  lemma SkippedLine(s: Spec, line: string, drop: bool, corrected: bool)
    requires Clean(line) && "FROM" <= line
    ensures ApplyLine(s, line, drop, corrected) == Ok(s)
  {
  }

  /** A recognised RUN line has its effect. */
  lemma RunLineApplied(s: Spec, line: string, drop: bool, corrected: bool, c: RunCommand)
    requires Clean(line) && line[0] == 'R'
    requires Recognise(line, corrected) == Some(c)
    ensures ApplyLine(s, line, drop, corrected) == Ok(RunEffect(s, c))
  {
  }

  /** A written package line has no line break and no surrounding space. */
  lemma PackageLineShape(prefix: string, name: string, op: string, version: Option<string>)
    requires IsName(name) && IsOptVersion(version)
    requires prefix != [] && prefix[0] == 'R' && NoLineBreak(prefix) && NoLineBreak(op)
    ensures var line := prefix + name + VersionSuffix(op, version) + "\"]";
      Clean(line) && line[0] == 'R'
  {
    var tail := VersionSuffix(op, version) + "\"]";
    NameNoBreak(name, IsNameChar);
    if version.Some? {
      NameNoBreak(version.value, IsVersionChar);
      NoBreakConcat(op, version.value);
    }
    NoBreakConcat(prefix, name);
    NoBreakConcat(VersionSuffix(op, version), "\"]");
    NoBreakConcat(prefix + name, tail);
    var line := prefix + name + tail;
    assert line[|line| - 1] == ']';
    assert line == prefix + name + VersionSuffix(op, version) + "\"]";
  }

  lemma AptLineFacts(name: string, version: Option<string>, corrected: bool)
    requires IsName(name) && IsOptVersion(version)
    ensures Clean(AptLine(name, version)) && AptLine(name, version)[0] == 'R'
    ensures Recognise(AptLine(name, version), corrected) == Some(AptInstall(name, version))
  {
    var line := AptLine(name, version);
    PackageLineShape("RUN [\"apt-get\"," + "\"install\"," + "\"-y\"," + "\"", name, "=", version);
    assert !IsPipSelfUpgrade(line) by { assert line[6] == 'a' && UpgradeLine[6] == 'p'; }
    AptLineRoundTrip(name, version);
  }

  lemma PipLineFacts(name: string, version: Option<string>, corrected: bool)
    requires IsName(name) && IsOptVersion(version)
    ensures Clean(PipLine(name, version)) && PipLine(name, version)[0] == 'R'
    ensures Recognise(PipLine(name, version), corrected) == Some(PipInstall(name, version))
  {
    var line := PipLine(name, version);
    PackageLineShape("RUN [\"pip\"," + "\"install\"," + "\"", name, "==", version);
    assert !IsPipSelfUpgrade(line) by { assert line[7] == 'i' && UpgradeLine[7] == 'y'; }
    PipLineRoundTrip(name, version);
  }

  function Install(entry: Entry, apt: bool): RunCommand {
    if apt then AptInstall(entry.0, entry.1) else PipInstall(entry.0, entry.1)
  }

  /** Lines that are, one by one, recognised installs of the entries of t. */
  predicate InstallLines(lines: seq<string>, t: Table, corrected: bool, apt: bool) {
    |lines| == |t| && forall i :: 0 <= i < |lines| ==> InstallLine(lines[i], t[i], corrected, apt)
  }

  /** One line that is a recognised install of one entry. */
  predicate InstallLine(line: string, e: Entry, corrected: bool, apt: bool) {
    Clean(line) && line[0] == 'R' && Recognise(line, corrected) == Some(Install(e, apt))
  }

  /** Reading such lines puts every entry into its dict in order. */
  lemma {:induction false} InstallLinesApplied(s: Spec, lines: seq<string>, t: Table, drop: bool, corrected: bool, apt: bool)
    requires InstallLines(lines, t, corrected, apt)
    ensures ApplyLines(s, lines, drop, corrected)
         == Ok(if apt then s.(apt := MergeTables(s.apt, t)) else s.(pip := MergeTables(s.pip, t)))
    decreases |t|
  {
    if t != [] {
      var n := |t| - 1;
      InstallLinesPrefix(lines, t, corrected, apt);
      InstallLinesApplied(s, lines[..n], t[..n], drop, corrected, apt);
      var s' := if apt then s.(apt := MergeTables(s.apt, t[..n])) else s.(pip := MergeTables(s.pip, t[..n]));
      RunLineApplied(s', lines[n], drop, corrected, Install(t[n], apt));
    }
  }

  lemma InstallLinesPrefix(lines: seq<string>, t: Table, corrected: bool, apt: bool)
    requires InstallLines(lines, t, corrected, apt) && t != []
    ensures InstallLines(lines[..|t| - 1], t[..|t| - 1], corrected, apt)
    ensures InstallLine(lines[|t| - 1], t[|t| - 1], corrected, apt)
  {
    var n := |t| - 1;
    forall i | 0 <= i < n ensures InstallLine(lines[..n][i], t[..n][i], corrected, apt) {
      assert lines[..n][i] == lines[i] && t[..n][i] == t[i];
    }
  }

  /** Every prefix of a writable table is writable. */
  lemma WritablePrefix(t: Table, n: nat)
    requires WritableEntries(t) && n <= |t|
    ensures WritableEntries(t[..n])
  {
    forall i | 0 <= i < n ensures IsName(t[..n][i].0) && IsOptVersion(t[..n][i].1) {
      assert t[..n][i] == t[i];
    }
  }

  /** Appending a line for the last entry of t to the lines of the others. */
  lemma InstallLinesSnoc(lines: seq<string>, t: Table, line: string, corrected: bool, apt: bool)
    requires t != [] && InstallLines(lines, t[..|t| - 1], corrected, apt)
    requires InstallLine(line, t[|t| - 1], corrected, apt)
    ensures InstallLines(lines + [line], t, corrected, apt)
  {
    var l := lines + [line];
    forall i | 0 <= i < |l| ensures InstallLine(l[i], t[i], corrected, apt) {
      if i < |lines| {
        assert l[i] == lines[i] && t[..|t| - 1][i] == t[i];
      }
    }
  }

  lemma {:induction false} AptLinesInstall(t: Table, corrected: bool)
    requires WritableEntries(t)
    ensures InstallLines(AptLines(t), t, corrected, true)
    decreases |t|
  {
    if t != [] {
      var n := |t| - 1;
      WritablePrefix(t, n);
      AptLinesInstall(t[..n], corrected);
      AptLineFacts(t[n].0, t[n].1, corrected);
      InstallLinesSnoc(AptLines(t[..n]), t, AptLine(t[n].0, t[n].1), corrected, true);
    }
  }

  lemma {:induction false} PipLinesInstall(t: Table, corrected: bool)
    requires WritableEntries(t)
    ensures InstallLines(PipLines(t), t, corrected, false)
    decreases |t|
  {
    if t != [] {
      var n := |t| - 1;
      WritablePrefix(t, n);
      PipLinesInstall(t[..n], corrected);
      PipLineFacts(t[n].0, t[n].1, corrected);
      InstallLinesSnoc(PipLines(t[..n]), t, PipLine(t[n].0, t[n].1), corrected, false);
    }
  }

  /** A line that does not start with "R" is no RUN line. */
  lemma NotRunLine(d: string, corrected: bool)
    requires d != [] && d[0] != 'R'
    ensures Recognise(d, corrected).None?
  {
  }

  /** The state after reading one directive line, by its keyword. */
  function WithDirective(s: Spec, keyword: string, line: string): Spec {
    if keyword == "COPY" then s.(copy := Some(line))
    else if keyword == "WORKDIR" then s.(workdir := Some(line))
    else s.(cmd := Some(line))
  }

  /** A COPY, WORKDIR or CMD line is kept, unless directives are dropped. */
  lemma DirectiveApplied(s: Spec, d: Option<string>, keyword: string, drop: bool, corrected: bool)
    requires keyword == "COPY" || keyword == "WORKDIR" || keyword == "CMD"
    requires WritableDirective(d, keyword)
    ensures ApplyLines(s, OptLine(d), drop, corrected)
         == Ok(if drop || d.None? then s else WithDirective(s, keyword, d.value))
  {
    if d.Some? {
      var line := d.value;
      assert line[0] == keyword[0] && line[1] == keyword[1];
      NotRunLine(line, corrected);
      assert [line][..0] == [];
    }
  }

  /** The COPY and WORKDIR lines, read back, restore those two directives. */
  lemma TwoDirectivesApplied(s: Spec, d: Spec, drop: bool, corrected: bool)
    requires WritableDirective(d.copy, "COPY") && WritableDirective(d.workdir, "WORKDIR")
    ensures ApplyLines(s, OptLine(d.copy) + OptLine(d.workdir), drop, corrected)
         == Ok(if drop then s
               else if d.workdir.None? then (if d.copy.None? then s else s.(copy := d.copy))
               else (if d.copy.None? then s else s.(copy := d.copy)).(workdir := d.workdir))
  {
    var s1 := if drop || d.copy.None? then s else s.(copy := d.copy);
    DirectiveApplied(s, d.copy, "COPY", drop, corrected);
    DirectiveApplied(s1, d.workdir, "WORKDIR", drop, corrected);
    ApplyLinesAppend(s, OptLine(d.copy), OptLine(d.workdir), drop, corrected);
  }

  /** The directive lines, read back, restore the directives unless they are dropped. */
  lemma DirectivesApplied(s: Spec, d: Spec, drop: bool, corrected: bool)
    requires WritableDirective(d.copy, "COPY") && WritableDirective(d.workdir, "WORKDIR")
    requires WritableDirective(d.cmd, "CMD")
    requires s.copy.None? && s.workdir.None? && s.cmd.None?
    ensures ApplyLines(s, Directives(d), drop, corrected)
         == Ok(if drop then s else s.(copy := d.copy, workdir := d.workdir, cmd := d.cmd))
  {
    var s1 := if drop || d.copy.None? then s else s.(copy := d.copy);
    var s2 := if drop || d.workdir.None? then s1 else s1.(workdir := d.workdir);
    TwoDirectivesApplied(s, d, drop, corrected);
    DirectiveApplied(s2, d.cmd, "CMD", drop, corrected);
    ApplyLinesAppend(s, OptLine(d.copy) + OptLine(d.workdir), OptLine(d.cmd), drop, corrected);
  }

  lemma FromLineFacts(v: string)
    requires IsPythonVersion(v)
    ensures Clean(FromLine(v)) && "FROM" <= FromLine(v)
  {
    var f := FromLine(v);
    NameNoBreak(v, IsPythonVersionChar);
    NoBreakConcat("FROM python:", v);
    assert f[|f| - 1] == v[|v| - 1];
    assert IsPythonVersionChar(v[|v| - 1]);
  }

  lemma UpdateLineFacts(corrected: bool)
    ensures Clean(UpdateLine) && UpdateLine[0] == 'R'
    ensures Recognise(UpdateLine, corrected) == Some(AptUpdate)
  {
    UpdateLineClean();
    UpdateLineNotUpgrade();
    UpdateLineRecognised();
  }

  lemma UpdateLineClean()
    ensures Clean(UpdateLine) && UpdateLine[0] == 'R'
  {
    assert UpdateLine[0] == 'R' && UpdateLine[|UpdateLine| - 1] == ']';
  }

  lemma UpdateLineNotUpgrade()
    ensures !IsPipSelfUpgrade(UpdateLine)
  {
    var u := UpgradeLine;
    assert u[6] == 'p';
    assert (u + "\n")[6] == u[6];
    assert UpdateLine[6] == 'a';
  }

  lemma UpgradeLineFacts()
    ensures Clean(UpgradeLine) && UpgradeLine[0] == 'R'
    ensures Recognise(UpgradeLine, true) == Some(PipSelfUpgrade)
    ensures IsInvalidLine(UpgradeLine, false)
  {
    UpgradeLineNoBreak();
    UpgradeLineRejected();
  }

  lemma UpgradeLineNoBreak()
    ensures NoLineBreak(UpgradeLine)
  {
    var a, b, c, d := "RUN [\"python\", ", "\"-m\", \"pip\", ", "\"install\", ", "\"--upgrade\", \"pip\"]";
    assert NoLineBreak(a) && NoLineBreak(b) && NoLineBreak(c) && NoLineBreak(d);
    NoBreakConcat(a, b);
    NoBreakConcat(a + b, c);
    NoBreakConcat(a + b + c, d);
  }

  /** The FROM line is skipped and the apt-get update line changes nothing. */
  lemma FromUpdateApplied(v: string, drop: bool, corrected: bool)
    requires IsPythonVersion(v)
    ensures ApplyLines(Fresh(v), [FromLine(v), UpdateLine], drop, corrected) == Ok(Fresh(v))
  {
    var f := FromLine(v);
    var s := Fresh(v);
    assert ApplyLines(s, [f], drop, corrected) == Ok(s) by {
      FromLineFacts(v);
      SkippedLine(s, f, drop, corrected);
      assert [f][..0] == [];
    }
    UpdateLineFacts(corrected);
    RunLineApplied(s, UpdateLine, drop, corrected, AptUpdate);
    assert [f, UpdateLine][..1] == [f];
  }

  /** The first three lines: FROM is skipped, apt-get update is recognised, and the
      pip self-upgrade line is an invalid line unless the grammar is corrected. */
  lemma HeaderApplied(v: string, drop: bool, corrected: bool)
    requires IsPythonVersion(v)
    ensures ApplyLines(Fresh(v), [FromLine(v)] + Header, drop, corrected)
         == if corrected then Ok(Fresh(v)) else Err(InvalidFormatException)
  {
    var f := FromLine(v);
    var lines := [f] + Header;
    assert lines[..2] == [f, UpdateLine] && lines[2] == UpgradeLine && |lines| == 3;
    FromUpdateApplied(v, drop, corrected);
    UpgradeLineFacts();
    if corrected {
      RunLineApplied(Fresh(v), UpgradeLine, drop, corrected, PipSelfUpgrade);
    }
  }

  lemma WritablePopped(s: Spec)
    requires Writable(s)
    ensures WritableEntries(Remove(s.apt, "python-pip")) && NoDupKeys(Remove(s.apt, "python-pip"))
  {
    RemoveSize(s.apt, "python-pip");
    var t := Remove(s.apt, "python-pip");
    forall i | 0 <= i < |t| ensures IsName(t[i].0) && IsOptVersion(t[i].1) {
      var j :| 0 <= j < |s.apt| && s.apt[j] == t[i];
    }
  }

  /** Every written line is a single line. */
  lemma RenderLinesSingle(s: Spec)
    requires Writable(s)
    ensures forall i :: 0 <= i < |RenderLines(s)| ==> NoLineBreak(RenderLines(s)[i])
  {
    var apt := Remove(s.apt, "python-pip");
    var h, a, p, d := [FromLine(s.pythonVersion)] + Header, AptLines(apt), PipLines(s.pip), Directives(s);
    HeaderSingle(s.pythonVersion);
    WritablePopped(s);
    InstallsSingle(apt, s.pip);
    DirectivesSingle(s);
    SingleLinesConcat(h, a);
    SingleLinesConcat(h + a, p);
    SingleLinesConcat(h + a + p, d);
    assert RenderLines(s) == h + a + p + d;
  }

  lemma HeaderSingle(v: string)
    requires IsPythonVersion(v)
    ensures SingleLines([FromLine(v)] + Header)
  {
    assert SingleLines([FromLine(v)]) by { FromLineFacts(v); }
    assert SingleLines([UpdateLine]) by { UpdateLineFacts(false); }
    assert SingleLines([UpgradeLine]) by { UpgradeLineNoBreak(); }
    SingleLinesConcat([FromLine(v)], [UpdateLine]);
    SingleLinesConcat([FromLine(v)] + [UpdateLine], [UpgradeLine]);
    assert [FromLine(v)] + Header == [FromLine(v)] + [UpdateLine] + [UpgradeLine];
  }

  lemma InstallsSingle(apt: Table, pip: Table)
    requires WritableEntries(apt) && WritableEntries(pip)
    ensures SingleLines(AptLines(apt)) && SingleLines(PipLines(pip))
  {
    AptLinesInstall(apt, false);
    PipLinesInstall(pip, false);
  }

  lemma DirectivesSingle(s: Spec)
    requires Writable(s)
    ensures SingleLines(Directives(s))
  {
    var c, w, m := OptLine(s.copy), OptLine(s.workdir), OptLine(s.cmd);
    assert SingleLines(c) && SingleLines(w) && SingleLines(m);
    SingleLinesConcat(c, w);
    SingleLinesConcat(c + w, m);
  }

  predicate SingleLines(lines: seq<string>) {
    forall i :: 0 <= i < |lines| ==> NoLineBreak(lines[i])
  }

  lemma SingleLinesConcat(a: seq<string>, b: seq<string>)
    requires SingleLines(a) && SingleLines(b)
    ensures SingleLines(a + b)
  {
    forall i | 0 <= i < |a + b| ensures NoLineBreak((a + b)[i]) {
      if i < |a| {
        assert (a + b)[i] == a[i];
      } else {
        assert (a + b)[i] == b[i - |a|];
      }
    }
  }

  /** Reading the apt lines after the header fills the apt dict. */
  lemma AptAfterHeader(s: Spec, drop: bool)
    requires Writable(s)
    ensures var v, apt := s.pythonVersion, Remove(s.apt, "python-pip");
      ApplyLines(Fresh(v), [FromLine(v)] + Header + AptLines(apt), drop, true) == Ok(Fresh(v).(apt := apt))
  {
    var v, apt := s.pythonVersion, Remove(s.apt, "python-pip");
    WritablePopped(s);
    HeaderApplied(v, drop, true);
    ApplyLinesAppend(Fresh(v), [FromLine(v)] + Header, AptLines(apt), drop, true);
    AptLinesInstall(apt, true);
    InstallLinesApplied(Fresh(v), AptLines(apt), apt, drop, true, true);
    MergeIntoEmpty(apt);
  }

  /** Reading the pip lines next fills the pip dict. */
  lemma PipAfterApt(s: Spec, prefix: seq<string>, drop: bool)
    requires Writable(s)
    requires ApplyLines(Fresh(s.pythonVersion), prefix, drop, true)
          == Ok(Fresh(s.pythonVersion).(apt := Remove(s.apt, "python-pip")))
    ensures ApplyLines(Fresh(s.pythonVersion), prefix + PipLines(s.pip), drop, true)
         == Ok(Fresh(s.pythonVersion).(apt := Remove(s.apt, "python-pip"), pip := s.pip))
  {
    var s1 := Fresh(s.pythonVersion).(apt := Remove(s.apt, "python-pip"));
    ApplyLinesAppend(Fresh(s.pythonVersion), prefix, PipLines(s.pip), drop, true);
    PipLinesInstall(s.pip, true);
    InstallLinesApplied(s1, PipLines(s.pip), s.pip, drop, true, false);
    MergeIntoEmpty(s.pip);
  }

  /** The written lines: the header, the apt and pip lines, the directives. */
  lemma RenderLinesParts(s: Spec)
    ensures var v, apt := s.pythonVersion, Remove(s.apt, "python-pip");
      RenderLines(s) == [FromLine(v)] + Header + AptLines(apt) + PipLines(s.pip) + Directives(s)
      && RenderLines(s) == [FromLine(v)] + Header + (AptLines(apt) + PipLines(s.pip) + Directives(s))
  {
    var v, apt := s.pythonVersion, Remove(s.apt, "python-pip");
    Regroup([FromLine(v)] + Header, AptLines(apt), PipLines(s.pip), Directives(s));
  }

  /** As written, the loop of `from_dockerfile` stops at the self-upgrade line. */
  lemma RenderLinesRejected(s: Spec, drop: bool)
    requires Writable(s)
    ensures ApplyLines(Fresh(s.pythonVersion), RenderLines(s), drop, false) == Err(InvalidFormatException)
  {
    var v, apt := s.pythonVersion, Remove(s.apt, "python-pip");
    RenderLinesParts(s);
    HeaderApplied(v, drop, false);
    ApplyLinesAppend(Fresh(v), [FromLine(v)] + Header, AptLines(apt) + PipLines(s.pip) + Directives(s), drop, false);
  }

  /** With the self-upgrade line accepted, the loop restores the specification. */
  lemma RenderLinesReread(s: Spec, drop: bool)
    requires Writable(s)
    ensures ApplyLines(Fresh(s.pythonVersion), RenderLines(s), drop, true) == Ok(Reread(s, drop))
  {
    var v, apt := s.pythonVersion, Remove(s.apt, "python-pip");
    var h, a, p, d := [FromLine(v)] + Header, AptLines(apt), PipLines(s.pip), Directives(s);
    RenderLinesParts(s);
    AptAfterHeader(s, drop);
    PipAfterApt(s, h + a, drop);
    ApplyLinesAppend(Fresh(v), h + a + p, d, drop, true);
    DirectivesApplied(Fresh(v).(apt := apt, pip := s.pip), s, drop, true);
  }

  /** As written, `from_dockerfile` cannot read what `to_dockerfile` writes: the
      pip self-upgrade line is an invalid line, so every such text raises. */
  lemma SerializeNotReparsed(s: Spec, drop: bool)
    requires Writable(s)
    ensures ParseDockerfile(Serialize(s), drop) == Err(InvalidFormatException)
  {
    RenderLinesSingle(s);
    SplitTerminated(RenderLines(s));
    FromLineRoundTrip(s.pythonVersion);
    RenderLinesRejected(s, drop);
  }

  /** With the self-upgrade line accepted, reading back what `to_dockerfile`
      writes gives the same Python version and the same apt (without
      "python-pip") and pip dicts in the same order; the directives come back
      unless they are dropped. */
  lemma RoundTripCorrected(s: Spec, drop: bool)
    requires Writable(s)
    ensures ParseDockerfileCorrected(Serialize(s), drop) == Ok(Reread(s, drop))
  {
    RenderLinesSingle(s);
    SplitTerminated(RenderLines(s));
    FromLineRoundTrip(s.pythonVersion);
    RenderLinesReread(s, drop);
  }

  // Merging several specifications.

  function Versions(specs: seq<Spec>): seq<string> {
    seq(|specs|, i requires 0 <= i < |specs| => specs[i].pythonVersion)
  }

  function Copies(specs: seq<Spec>): seq<Option<string>> {
    seq(|specs|, i requires 0 <= i < |specs| => specs[i].copy)
  }

  function Workdirs(specs: seq<Spec>): seq<Option<string>> {
    seq(|specs|, i requires 0 <= i < |specs| => specs[i].workdir)
  }

  function Cmds(specs: seq<Spec>): seq<Option<string>> {
    seq(|specs|, i requires 0 <= i < |specs| => specs[i].cmd)
  }

  function AptTables(specs: seq<Spec>): seq<Table> {
    seq(|specs|, i requires 0 <= i < |specs| => specs[i].apt)
  }

  function PipTables(specs: seq<Spec>): seq<Table> {
    seq(|specs|, i requires 0 <= i < |specs| => specs[i].pip)
  }

  /** `merge_dependencies`: raises on an empty list, on differing Python versions
      and, for more than one specification, on differing COPY, WORKDIR or CMD
      lines (a missing line differs from a present one); otherwise a new
      specification with the first version and directives and both dicts merged
      in input order. */
  function MergeSpecs(specs: seq<Spec>): (r: Result<Spec>)
    ensures r.Err? ==> r.error == InvalidFormatException
    ensures r.Ok? ==> specs != [] && ValidSpec(r.value)
  {
    if specs == [] then Err(InvalidFormatException)
    else if !Lists.AllEqual(Versions(specs)) then Err(InvalidFormatException)
    else if |specs| > 1 && !Lists.AllEqual(Copies(specs)) then Err(InvalidFormatException)
    else if |specs| > 1 && !Lists.AllEqual(Workdirs(specs)) then Err(InvalidFormatException)
    else if |specs| > 1 && !Lists.AllEqual(Cmds(specs)) then Err(InvalidFormatException)
    else
      match Init(FromLine(specs[0].pythonVersion))
      case Err(e) => Err(e)
      case Ok(f) =>
        Ok(f.(apt := MergeAll(AptTables(specs)), pip := MergeAll(PipTables(specs)),
              copy := specs[0].copy, workdir := specs[0].workdir, cmd := specs[0].cmd))
  }

  predicate Disagree(s: Spec, t: Spec) {
    s.pythonVersion != t.pythonVersion || s.copy != t.copy || s.workdir != t.workdir || s.cmd != t.cmd
  }

  /** What the merge gives once every check has passed. */
  lemma MergeSpecsOk(specs: seq<Spec>, f: Spec)
    requires specs != [] && Lists.AllEqual(Versions(specs))
    requires Lists.AllEqual(Copies(specs)) && Lists.AllEqual(Workdirs(specs)) && Lists.AllEqual(Cmds(specs))
    requires Init(FromLine(specs[0].pythonVersion)) == Ok(f)
    ensures MergeSpecs(specs) == Ok(f.(apt := MergeAll(AptTables(specs)), pip := MergeAll(PipTables(specs)),
              copy := specs[0].copy, workdir := specs[0].workdir, cmd := specs[0].cmd))
  {
  }

  /** What a successful merge has checked and what it holds. */
  lemma MergeSpecsShape(specs: seq<Spec>)
    requires MergeSpecs(specs).Ok?
    ensures specs != [] && Lists.AllEqual(Versions(specs))
    ensures |specs| > 1 ==> Lists.AllEqual(Copies(specs)) && Lists.AllEqual(Workdirs(specs)) && Lists.AllEqual(Cmds(specs))
    ensures var r := MergeSpecs(specs).value;
      r.apt == MergeAll(AptTables(specs)) && r.pip == MergeAll(PipTables(specs))
      && r.copy == specs[0].copy && r.workdir == specs[0].workdir && r.cmd == specs[0].cmd
  {
  }

  /** A merged specification agrees with every input on the version and the
      directives, and has exactly the package names of the inputs. */
  lemma MergeSpecsContents(specs: seq<Spec>)
    requires MergeSpecs(specs).Ok?
    ensures var r := MergeSpecs(specs).value;
      (forall i :: 0 <= i < |specs| ==>
         specs[i].pythonVersion == specs[0].pythonVersion && specs[i].copy == r.copy
         && specs[i].workdir == r.workdir && specs[i].cmd == r.cmd)
      && (forall k :: k in Keys(r.apt) <==> exists i :: 0 <= i < |specs| && k in Keys(specs[i].apt))
      && (forall k :: k in Keys(r.pip) <==> exists i :: 0 <= i < |specs| && k in Keys(specs[i].pip))
  {
    MergeSpecsShape(specs);
    MergeSpecsAgree(specs);
    MergedKeys(specs);
  }

  /** The names of the merged dicts are those of the inputs. */
  lemma MergedKeys(specs: seq<Spec>)
    ensures forall k :: k in Keys(MergeAll(AptTables(specs))) <==> exists i :: 0 <= i < |specs| && k in Keys(specs[i].apt)
    ensures forall k :: k in Keys(MergeAll(PipTables(specs))) <==> exists i :: 0 <= i < |specs| && k in Keys(specs[i].pip)
  {
    var apts, pips := AptTables(specs), PipTables(specs);
    assert forall i :: 0 <= i < |specs| ==> apts[i] == specs[i].apt && pips[i] == specs[i].pip;
  }

  lemma AgreesWithFirst(specs: seq<Spec>, i: nat)
    requires i < |specs| && Lists.AllEqual(Versions(specs))
    requires |specs| > 1 ==> Lists.AllEqual(Copies(specs)) && Lists.AllEqual(Workdirs(specs)) && Lists.AllEqual(Cmds(specs))
    ensures specs[i].pythonVersion == specs[0].pythonVersion && specs[i].copy == specs[0].copy
         && specs[i].workdir == specs[0].workdir && specs[i].cmd == specs[0].cmd
  {
    assert Versions(specs)[i] == Versions(specs)[0];
    if |specs| > 1 {
      assert Copies(specs)[i] == Copies(specs)[0];
      assert Workdirs(specs)[i] == Workdirs(specs)[0];
      assert Cmds(specs)[i] == Cmds(specs)[0];
    }
  }

  /** Every input agrees with the merge on the version and the directives. */
  lemma MergeSpecsAgree(specs: seq<Spec>)
    requires MergeSpecs(specs).Ok?
    ensures var r := MergeSpecs(specs).value;
      forall i :: 0 <= i < |specs| ==>
         specs[i].pythonVersion == specs[0].pythonVersion && specs[i].copy == r.copy
         && specs[i].workdir == r.workdir && specs[i].cmd == r.cmd
  {
    MergeSpecsShape(specs);
    forall i | 0 <= i < |specs|
      ensures specs[i].pythonVersion == specs[0].pythonVersion && specs[i].copy == specs[0].copy
           && specs[i].workdir == specs[0].workdir && specs[i].cmd == specs[0].cmd
    {
      AgreesWithFirst(specs, i);
    }
  }

  /** For specifications an instance can hold, the merge raises exactly when the
      list is empty or two entries differ in version or directives. */
  lemma MergeSpecsFails(specs: seq<Spec>)
    requires forall i :: 0 <= i < |specs| ==> ValidSpec(specs[i])
    ensures MergeSpecs(specs).Err? <==>
      specs == [] || (exists i :: 0 <= i < |specs| && Disagree(specs[i], specs[0]))
  {
    if specs != [] {
      if i :| 0 <= i < |specs| && Disagree(specs[i], specs[0]) {
        DisagreementFails(specs, i);
      } else {
        AgreementPasses(specs);
        FromLineRoundTrip(specs[0].pythonVersion);
      }
    }
  }

  /** One input that disagrees with the first makes one of the checks fail. */
  lemma DisagreementFails(specs: seq<Spec>, i: nat)
    requires i < |specs| && Disagree(specs[i], specs[0])
    ensures MergeSpecs(specs).Err?
  {
    var directives := Lists.AllEqual(Copies(specs)) && Lists.AllEqual(Workdirs(specs)) && Lists.AllEqual(Cmds(specs));
    if Lists.AllEqual(Versions(specs)) && (|specs| > 1 ==> directives) {
      AgreesWithFirst(specs, i);
      assert false;
    }
  }

  /** Inputs that all agree with the first pass every check. */
  lemma AgreementPasses(specs: seq<Spec>)
    requires specs != [] && forall i :: 0 <= i < |specs| ==> !Disagree(specs[i], specs[0])
    ensures Lists.AllEqual(Versions(specs)) && Lists.AllEqual(Copies(specs))
    ensures Lists.AllEqual(Workdirs(specs)) && Lists.AllEqual(Cmds(specs))
  {
    var v, c, w, m := Versions(specs), Copies(specs), Workdirs(specs), Cmds(specs);
    forall i | 0 <= i < |specs| ensures v[i] == v[0] && c[i] == c[0] && w[i] == w[0] && m[i] == m[0] {
      assert !Disagree(specs[i], specs[0]);
    }
  }

  /** Merging a single specification reproduces it. */
  lemma MergeSpecsSingle(s: Spec)
    requires ValidSpec(s)
    ensures MergeSpecs([s]) == Ok(s)
  {
    FromLineRoundTrip(s.pythonVersion);
    assert AptTables([s]) == [s.apt] && PipTables([s]) == [s.pip];
    MergeAllSingle(s.apt);
    MergeAllSingle(s.pip);
  }

  /** Each package of the merge carries its first non-null version across the
      inputs, in input order. */
  lemma MergeSpecsVersions(specs: seq<Spec>, name: string)
    requires forall i :: 0 <= i < |specs| ==> ValidSpec(specs[i])
    requires MergeSpecs(specs).Ok?
    ensures Get(MergeSpecs(specs).value.apt, name) == FirstVersion(AptTables(specs), name)
    ensures Get(MergeSpecs(specs).value.pip, name) == FirstVersion(PipTables(specs), name)
  {
    MergeSpecsShape(specs);
    MergeAllGet(AptTables(specs), name);
    MergeAllGet(PipTables(specs), name);
  }

  /** An optional directive line with its "\n", or nothing. */
  function OptText(d: Option<string>): string {
    if d.Some? then d.value + "\n" else ""
  }

  lemma OptLineText(d: Option<string>)
    ensures Terminated(OptLine(d)) == OptText(d)
  {
    if d.Some? {
      TerminatedSnoc([], d.value);
      assert [] + [d.value] == [d.value];
    }
  }

  lemma Regroup<T>(a: seq<T>, b: seq<T>, c: seq<T>, d: seq<T>)
    ensures a + b + c + d == a + (b + c + d) && a + b + c + d == a + b + (c + d)
  {
  }

  /** The first three lines, each with its "\n". */
  lemma HeaderText(v: string)
    ensures FromLine(v) + "\n" + UpdateLine + "\n" + UpgradeLine + "\n" == Terminated([FromLine(v)] + Header)
  {
    TerminatedThree(FromLine(v), UpdateLine, UpgradeLine);
    assert [FromLine(v)] + Header == [FromLine(v), UpdateLine, UpgradeLine];
  }

  /** The directive lines, each with its "\n". */
  lemma DirectivesText(s: Spec)
    ensures Terminated(Directives(s)) == OptText(s.copy) + OptText(s.workdir) + OptText(s.cmd)
  {
    var c, w, m := OptLine(s.copy), OptLine(s.workdir), OptLine(s.cmd);
    TerminatedAppend(c + w, m);
    TerminatedAppend(c, w);
    OptLineText(s.copy);
    OptLineText(s.workdir);
    OptLineText(s.cmd);
  }

  /** The text of `to_dockerfile` in the pieces its code appends. */
  lemma SerializeParts(s: Spec)
    ensures Serialize(s) == Terminated([FromLine(s.pythonVersion)] + Header)
      + Terminated(AptLines(Remove(s.apt, "python-pip"))) + Terminated(PipLines(s.pip))
      + (OptText(s.copy) + OptText(s.workdir) + OptText(s.cmd))
  {
    var h, a, p := [FromLine(s.pythonVersion)] + Header, AptLines(Remove(s.apt, "python-pip")), PipLines(s.pip);
    TerminatedAppend(h + a + p, Directives(s));
    TerminatedAppend(h + a, p);
    TerminatedAppend(h, a);
    DirectivesText(s);
  }

  /** One more package line written after the others. */
  lemma PackageLinesStep(t: Table, i: nat, apt: bool)
    requires i < |t|
    ensures apt ==> Terminated(AptLines(t[..i + 1])) == Terminated(AptLines(t[..i])) + (AptLine(t[i].0, t[i].1) + "\n")
    ensures !apt ==> Terminated(PipLines(t[..i + 1])) == Terminated(PipLines(t[..i])) + (PipLine(t[i].0, t[i].1) + "\n")
  {
    assert t[..i + 1][..i] == t[..i];
    TerminatedSnoc(AptLines(t[..i]), AptLine(t[i].0, t[i].1));
    TerminatedSnoc(PipLines(t[..i]), PipLine(t[i].0, t[i].1));
  }

  // The class, with the fields of an instance.

  class Dependencies {
    var pythonVersion: string
    var aptInstalls: Table
    var pipInstalls: Table
    var copyCommand: Option<string>
    var workdirCommand: Option<string>
    var cmdCommand: Option<string>

    function Model(): Spec
      reads this
    {
      Spec(pythonVersion, aptInstalls, pipInstalls, copyCommand, workdirCommand, cmdCommand)
    }

    predicate Valid()
      reads this
    {
      ValidSpec(Model())
    }

    /** The fields `__init__` sets once the FROM clause has matched. */
    constructor (version: string)
      ensures Model() == Fresh(version)
    {
      pythonVersion := version;
      aptInstalls := [];
      pipInstalls := [];
      copyCommand := None;
      workdirCommand := None;
      cmdCommand := None;
    }

    /** `Dependencies(from_clause)`, which raises unless the clause matches. */
    static method New(fromClause: string) returns (r: Result<Dependencies>)
      ensures r.Err? <==> Init(fromClause).Err?
      ensures r.Err? ==> r.error == InvalidFormatException
      ensures r.Ok? ==> fresh(r.value) && r.value.Valid() && r.value.Model() == Init(fromClause).value
    {
      var version := FromClauseVersion(fromClause);
      if version.None? {
        return Err(InvalidFormatException);
      }
      var d := new Dependencies(version.value);
      return Ok(d);
    }

    /** `add_pip_dependency`: the keep-first insert into the pip dict. */
    method AddPipDependency(name: string, version: Option<string>)
      modifies this
      ensures Model() == old(Model()).(pip := Put(old(pipInstalls), name, version))
      ensures old(Valid()) ==> Valid()
    {
      pipInstalls := Put(pipInstalls, name, version);
    }

    /** `add_apt_dependency`: the keep-first insert into the apt dict. */
    method AddAptDependency(name: string, version: Option<string>)
      modifies this
      ensures Model() == old(Model()).(apt := Put(old(aptInstalls), name, version))
      ensures old(Valid()) ==> Valid()
    {
      aptInstalls := Put(aptInstalls, name, version);
    }

    /** `__parse_run_command`: adds the package of a pip or apt-get install line and
        tells whether the line is one of the RUN lines it knows. */
    method ParseRunCommand(cmd: string) returns (ok: bool)
      modifies this
      ensures ok <==> DockerfileGrammar.ParseRunCommand(cmd).Some?
      ensures Model() == if ok then RunEffect(old(Model()), DockerfileGrammar.ParseRunCommand(cmd).value) else old(Model())
      ensures old(Valid()) ==> Valid()
    {
      var pip := ParsePipInstall(cmd);
      if pip.Some? {
        AddPipDependency(pip.value.0, pip.value.1);
        return true;
      }
      var apt := ParseAptInstall(cmd);
      if apt.Some? {
        AddAptDependency(apt.value.0, apt.value.1);
        return true;
      }
      return IsAptUpdate(cmd);
    }

    /** `add_run_command`: raises unless the line is a known RUN line. */
    method AddRunCommand(cmd: string) returns (r: Result<()>)
      modifies this
      ensures r.Err? <==> DockerfileGrammar.ParseRunCommand(cmd).None?
      ensures r.Err? ==> r.error == InvalidFormatException && Model() == old(Model())
      ensures r.Ok? ==> Model() == RunEffect(old(Model()), DockerfileGrammar.ParseRunCommand(cmd).value)
      ensures old(Valid()) ==> Valid()
    {
      var ok := ParseRunCommand(cmd);
      if !ok {
        return Err(InvalidFormatException);
      }
      return Ok(());
    }

    /** `set_copy_command`: raises unless the line starts with "COPY"; overwrites
        a present line only when `replace` is set. */
    method SetCopyCommand(cmd: string, replace: bool) returns (r: Result<()>)
      modifies this
      ensures r.Err? <==> !("COPY" <= cmd)
      ensures r.Err? ==> r.error == InvalidFormatException && Model() == old(Model())
      ensures r.Ok? ==> Model() == old(Model()).(copy := if old(copyCommand).None? || replace then Some(cmd) else old(copyCommand))
    {
      if !("COPY" <= cmd) {
        return Err(InvalidFormatException);
      } else if copyCommand.None? || replace {
        copyCommand := Some(cmd);
      }
      return Ok(());
    }

    /** `set_workdir_command`, as `set_copy_command` with "WORKDIR". */
    method SetWorkdirCommand(cmd: string, replace: bool) returns (r: Result<()>)
      modifies this
      ensures r.Err? <==> !("WORKDIR" <= cmd)
      ensures r.Err? ==> r.error == InvalidFormatException && Model() == old(Model())
      ensures r.Ok? ==> Model() == old(Model()).(workdir := if old(workdirCommand).None? || replace then Some(cmd) else old(workdirCommand))
    {
      if !("WORKDIR" <= cmd) {
        return Err(InvalidFormatException);
      } else if workdirCommand.None? || replace {
        workdirCommand := Some(cmd);
      }
      return Ok(());
    }

    /** `set_cmd_command`, as `set_copy_command` with "CMD". */
    method SetCmdCommand(cmd: string, replace: bool) returns (r: Result<()>)
      modifies this
      ensures r.Err? <==> !("CMD" <= cmd)
      ensures r.Err? ==> r.error == InvalidFormatException && Model() == old(Model())
      ensures r.Ok? ==> Model() == old(Model()).(cmd := if old(cmdCommand).None? || replace then Some(cmd) else old(cmdCommand))
    {
      if !("CMD" <= cmd) {
        return Err(InvalidFormatException);
      } else if cmdCommand.None? || replace {
        cmdCommand := Some(cmd);
      }
      return Ok(());
    }

    /** `pip_dependency_count`: the number of names in the pip dict. */
    function PipDependencyCount(): (n: nat)
      reads this
      requires Valid()
      ensures n == |Keys(pipInstalls)|
    {
      KeysCardinality(pipInstalls);
      |pipInstalls|
    }

    /** `apt_dependency_count`: the number of names in the apt dict. */
    function AptDependencyCount(): (n: nat)
      reads this
      requires Valid()
      ensures n == |Keys(aptInstalls)|
    {
      KeysCardinality(aptInstalls);
      |aptInstalls|
    }

    /** `to_dockerfile`: writes the lines one by one, popping "python-pip" from
        the apt dict on the way. */
    method ToDockerfile() returns (df: string)
      modifies this
      ensures df == Serialize(old(Model()))
      ensures Model() == AfterSerialize(old(Model()))
    {
      ghost var s := Model();
      df := FromLine(pythonVersion) + "\n";
      df := df + UpdateLine + "\n";
      df := df + UpgradeLine + "\n";
      HeaderText(s.pythonVersion);
      aptInstalls := Remove(aptInstalls, "python-pip");
      df := WriteAptLines(df, aptInstalls);
      df := WritePipLines(df, pipInstalls);
      ghost var body := df;
      df := WriteDirective(df, copyCommand);
      df := WriteDirective(df, workdirCommand);
      df := WriteDirective(df, cmdCommand);
      SerializeParts(s);
      Regroup(body, OptText(s.copy), OptText(s.workdir), OptText(s.cmd));
    }

    /** A COPY, WORKDIR or CMD line of `to_dockerfile`, written when it is set. */
    static method WriteDirective(df: string, d: Option<string>) returns (out: string)
      ensures out == df + OptText(d)
    {
      out := df;
      if d.Some? {
        out := out + d.value + "\n";
      }
    }

    /** The loop of `to_dockerfile` over the apt dict: one install line per entry, in order. */
    static method WriteAptLines(df: string, apt: Table) returns (out: string)
      ensures out == df + Terminated(AptLines(apt))
    {
      out := df;
      for i := 0 to |apt|
        invariant out == df + Terminated(AptLines(apt[..i]))
      {
        var (name, version) := apt[i];
        var line := AptLine(name, version);
        PackageLinesStep(apt, i, true);
        Regroup(df, Terminated(AptLines(apt[..i])), line, "\n");
        out := out + line + "\n";
      }
      assert apt[..|apt|] == apt;
    }

    /** The loop of `to_dockerfile` over the pip dict: one install line per entry, in order. */
    static method WritePipLines(df: string, pip: Table) returns (out: string)
      ensures out == df + Terminated(PipLines(pip))
    {
      out := df;
      for i := 0 to |pip|
        invariant out == df + Terminated(PipLines(pip[..i]))
      {
        var (name, version) := pip[i];
        var line := PipLine(name, version);
        PackageLinesStep(pip, i, false);
        Regroup(df, Terminated(PipLines(pip[..i])), line, "\n");
        out := out + line + "\n";
      }
      assert pip[..|pip|] == pip;
    }

    /** `Dependencies.from_dockerfile`: the loop over the lines, updating a new
        instance and raising at the first invalid line. */
    static method FromDockerfile(dockerfile: string, drop: bool) returns (r: Result<Dependencies>)
      ensures r.Err? <==> ParseDockerfile(dockerfile, drop).Err?
      ensures r.Err? ==> r.error == InvalidFormatException
      ensures r.Ok? ==> fresh(r.value) && r.value.Model() == ParseDockerfile(dockerfile, drop).value
    {
      var df := SplitLines(dockerfile);
      if |df| == 0 {
        return Err(InvalidFormatException);
      }
      var created := New(df[0]);
      if created.Err? {
        return Err(created.error);
      }
      var instance := created.value;
      ghost var start := instance.Model();
      for i := 0 to |df|
        invariant ApplyLines(start, df[..i], drop, false) == Ok(instance.Model())
      {
        ApplyLinesStep(start, df, i, drop, false, instance.Model());
        var ok := instance.ReadLine(df[i], drop);
        if !ok {
          ApplyLinesRejects(start, df, drop, false, i);
          return Err(InvalidFormatException);
        }
      }
      assert df[..|df|] == df;
      return Ok(instance);
    }

    /** One pass of the loop of `from_dockerfile`: false for an invalid line. */
    method ReadLine(raw: string, drop: bool) returns (ok: bool)
      modifies this
      ensures ApplyLine(old(Model()), raw, drop, false) == if ok then Ok(Model()) else Err(InvalidFormatException)
    {
      var line := Strip(raw);
      if line == "" || "FROM" <= line {
        return true;
      }
      var recognised := ParseRunCommand(line);
      if recognised {
        return true;
      }
      if "COPY" <= line {
        if !drop {
          copyCommand := Some(line);
        }
      } else if "CMD" <= line {
        if !drop {
          cmdCommand := Some(line);
        }
      } else if "WORKDIR" <= line {
        if !drop {
          workdirCommand := Some(line);
        }
      } else {
        return false;
      }
      return true;
    }

    /** `Dependencies.merge_dependencies`: the checks, then the dicts of every
        input merged into a new instance; the inputs are not modified. */
    static method MergeDependencies(deps: seq<Dependencies>) returns (r: Result<Dependencies>)
      ensures r.Err? <==> MergeSpecs(old(Models(deps))).Err?
      ensures r.Err? ==> r.error == InvalidFormatException
      ensures r.Ok? ==> fresh(r.value) && r.value.Model() == MergeSpecs(old(Models(deps))).value
    {
      var specs := Models(deps);
      if |deps| == 0 {
        return Err(InvalidFormatException);
      }
      var froms := Versions(specs);
      if !Lists.AllEqual(froms) {
        return Err(InvalidFormatException);
      }
      var copy, work, cmds := Copies(specs), Workdirs(specs), Cmds(specs);
      if |copy| > 1 && !(Lists.AllEqual(copy) && Lists.AllEqual(work) && Lists.AllEqual(cmds)) {
        return Err(InvalidFormatException);
      }
      var created := New(FromLine(froms[0]));
      if created.Err? {
        return Err(created.error);
      }
      var instance := created.value;
      ghost var start := instance.Model();
      assert Models(deps) == specs;
      MergeInstalls(instance, deps);
      ghost var merged := start.(apt := MergeAll(AptTables(specs)), pip := MergeAll(PipTables(specs)));
      assert instance.Model() == merged;
      assert copy[0] == specs[0].copy && work[0] == specs[0].workdir && cmds[0] == specs[0].cmd;
      instance.SetDirectives(copy[0], work[0], cmds[0]);
      MergeSpecsOk(specs, start);
      return Ok(instance);
    }

    /** The COPY, WORKDIR and CMD lines of the first input, set on the merge. */
    method SetDirectives(copy: Option<string>, workdir: Option<string>, cmd: Option<string>)
      modifies this
      ensures Model() == old(Model()).(copy := copy, workdir := workdir, cmd := cmd)
    {
      copyCommand, workdirCommand, cmdCommand := copy, workdir, cmd;
    }

    /** The loop of `merge_dependencies`: the apt and pip dicts of every input, in
        order, merged into those of the new instance. */
    static method MergeInstalls(instance: Dependencies, deps: seq<Dependencies>)
      requires instance.aptInstalls == [] && instance.pipInstalls == []
      modifies instance
      ensures instance.Model() == old(instance.Model()).(
        apt := MergeAll(AptTables(old(Models(deps)))), pip := MergeAll(PipTables(old(Models(deps)))))
    {
      var apt, pip := MergeEach(AptTables(Models(deps)), PipTables(Models(deps)));
      instance.aptInstalls, instance.pipInstalls := apt, pip;
    }

    /** The dicts of the inputs merged one after the other, starting empty. */
    static method MergeEach(apts: seq<Table>, pips: seq<Table>) returns (apt: Table, pip: Table)
      requires |apts| == |pips|
      ensures apt == MergeAll(apts) && pip == MergeAll(pips)
    {
      apt, pip := [], [];
      for i := 0 to |apts|
        invariant apt == MergeAll(apts[..i]) && pip == MergeAll(pips[..i])
      {
        MergeAllStep(apts, i);
        MergeAllStep(pips, i);
        apt := MergeInto(apt, apts[i]);
        pip := MergeInto(pip, pips[i]);
      }
      assert apts[..|apts|] == apts && pips[..|pips|] == pips;
    }
  }

  /** One more instance adds its state at the end. */
  lemma ModelsSnoc(deps: seq<Dependencies>, d: Dependencies)
    ensures Models(deps + [d]) == Models(deps) + [d.Model()]
  {
    assert forall i :: 0 <= i < |deps| ==> (deps + [d])[i] == deps[i];
  }

  /** The states of several instances. */
  function Models(deps: seq<Dependencies>): (specs: seq<Spec>)
    reads deps
    ensures |specs| == |deps|
    ensures forall i :: 0 <= i < |deps| ==> specs[i] == deps[i].Model()
  {
    seq(|deps|, i reads deps requires 0 <= i < |deps| => deps[i].Model())
  }
}
