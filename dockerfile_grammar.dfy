/** The line grammar of the pseudo-Dockerfiles read and written by
    `Dependencies` (pyexec/util/dependencies.py): the four regular expressions
    of lines 14-21, written as recognisers, and the lines `to_dockerfile` writes.

    Every pattern is applied with `re.match`, so it is anchored at the start,
    and ends in `$`, which also accepts one final "\n". Within each pattern the
    greedy classes are followed only by characters outside them, so no
    backtracking can change a match and each recogniser is a single left-to-right
    pass. */
module DockerfileGrammar {
  import opened Wrappers
  import opened Text
  import DepTable

  /** `[\d.]`: the characters of a Python version in a FROM line. */
  predicate IsPythonVersionChar(c: char) { IsDigit(c) || c == '.' }

  /** `[\w\d._-]`: the characters of a package name. */
  predicate IsNameChar(c: char) { IsWordChar(c) || c == '.' || c == '-' }

  /** `[\d\w._+:~-]`: the characters of a package version. */
  predicate IsVersionChar(c: char) { IsNameChar(c) || c == '+' || c == ':' || c == '~' }

  /** `[<=>]`: the characters of a version comparison, as the Pipfile and
      requirements.txt patterns accept them. */
  predicate IsOpChar(c: char) { c == '<' || c == '=' || c == '>' }

  predicate IsPythonVersion(v: string) { v != [] && All(v, IsPythonVersionChar) }
  predicate IsName(n: string) { n != [] && All(n, IsNameChar) }
  predicate IsVersion(v: string) { v != [] && All(v, IsVersionChar) }
  predicate IsOptVersion(v: Option<string>) { v.Some? ==> IsVersion(v.value) }

  /** `^FROM python:(?P<version>[\d.]+)$`: the captured version, if the clause matches. */
  function FromClauseVersion(clause: string): (r: Option<string>)
    ensures r.Some? ==> IsPythonVersion(r.value)
    ensures r.Some? ==> clause == FromLine(r.value) || clause == FromLine(r.value) + "\n"
  {
    match Expect(clause, "FROM python:")
    case None => None
    case Some(rest) =>
      var n := Span(rest, IsPythonVersionChar);
      if n > 0 && AtEnd(rest[n..]) then
        assert rest == rest[..n] + rest[n..];
        Some(rest[..n])
      else None
  }

  /** A RUN line that `__parse_run_command` recognises. */
  datatype RunCommand =
    | PipInstall(pipName: string, pipVersion: Option<string>)
    | AptInstall(aptName: string, aptVersion: Option<string>)
    | AptUpdate
    | PipSelfUpgrade  // recognised only by the corrected grammar

  /** `"]$` */
  predicate IsCloseAtEnd(s: string) { s == "\"]" || s == "\"]\n" }

  /** The common tail of both install patterns, after the opening quote:
      `(?P<name>[\w\d._-]+) ?(?:op ?(?P<version>[\d\w._+:~-]+))?"\]$`. */
  function ParsePackageTail(s: string, op: string): (r: Option<DepTable.Entry>)
    ensures r.Some? ==> IsName(r.value.0) && IsOptVersion(r.value.1)
  {
    var n := Span(s, IsNameChar);
    if n == 0 then None
    else
      var rest := OptSpace(s[n..]);
      match Expect(rest, op)
      case None => if IsCloseAtEnd(rest) then Some((s[..n], None)) else None
      case Some(after) =>
        var v := OptSpace(after);
        var m := Span(v, IsVersionChar);
        if m > 0 && IsCloseAtEnd(v[m..]) then Some((s[..n], Some(v[..m]))) else None
  }

  /** `^RUN \["pip", ?"install", ?"<tail with ==>` */
  function ParsePipInstall(s: string): (r: Option<DepTable.Entry>)
    ensures r.Some? ==> "RUN [\"pip\"," <= s && "RUN [\"" <= s
  {
    match Expect(s, "RUN [\"pip\",")
    case None => None
    case Some(a) =>
      match Expect(OptSpace(a), "\"install\",")
      case None => None
      case Some(b) =>
        match Expect(OptSpace(b), "\"")
        case None => None
        case Some(c) => ParsePackageTail(c, "==")
  }

  /** `^RUN \["apt-get", ?"install", ?(?:"-y", ?)?"<tail with =>`. The `-y`
      group is taken whenever the text has it: without it the name would be
      `-y` and the `"` after it would have to be followed by `]`, not `,`. */
  function ParseAptInstall(s: string): (r: Option<DepTable.Entry>)
    ensures r.Some? ==> "RUN [\"apt-get\"," <= s && "RUN [\"" <= s
  {
    match Expect(s, "RUN [\"apt-get\",")
    case None => None
    case Some(a) =>
      match Expect(OptSpace(a), "\"install\",")
      case None => None
      case Some(b) =>
        var b' := OptSpace(b);
        var c := match Expect(b', "\"-y\",") case Some(y) => OptSpace(y) case None => b';
        match Expect(c, "\"")
        case None => None
        case Some(d) => ParsePackageTail(d, "=")
  }

  /** `^RUN \["apt-get", ?"update" ?\]$` */
  predicate IsAptUpdate(s: string)
    ensures IsAptUpdate(s) ==> "RUN [\"" <= s
  {
    match Expect(s, "RUN [\"apt-get\",")
    case None => false
    case Some(a) =>
      match Expect(OptSpace(a), "\"update\"")
      case None => false
      case Some(b) => OptSpace(b) == "]" || OptSpace(b) == "]\n"
  }

  /** `__parse_run_command` without its effect: pip first, then apt-get install,
      then apt-get update. */
  function ParseRunCommand(cmd: string): (r: Option<RunCommand>)
    ensures r.Some? ==> "RUN [\"" <= cmd
    ensures r.Some? && r.value.PipInstall? ==> IsName(r.value.pipName) && IsOptVersion(r.value.pipVersion)
    ensures r.Some? && r.value.AptInstall? ==> IsName(r.value.aptName) && IsOptVersion(r.value.aptVersion)
  {
    match ParsePipInstall(cmd)
    case Some(e) => Some(PipInstall(e.0, e.1))
    case None =>
      match ParseAptInstall(cmd)
      case Some(e) => Some(AptInstall(e.0, e.1))
      case None => if IsAptUpdate(cmd) then Some(AptUpdate) else None
  }

  /** The pip self-upgrade line `to_dockerfile` writes, as its own pattern. */
  predicate IsPipSelfUpgrade(cmd: string) { cmd == UpgradeLine || cmd == UpgradeLine + "\n" }

  /** `__parse_run_command` as it would have to be for `to_dockerfile`'s output to
      read back: the four patterns plus the pip self-upgrade line. */
  function ParseRunCommandCorrected(cmd: string): (r: Option<RunCommand>)
    ensures r.Some? ==> "RUN [\"" <= cmd
    ensures r.Some? && r.value.PipInstall? ==> IsName(r.value.pipName) && IsOptVersion(r.value.pipVersion)
    ensures r.Some? && r.value.AptInstall? ==> IsName(r.value.aptName) && IsOptVersion(r.value.aptVersion)
    ensures r.Some? <==> ParseRunCommand(cmd).Some? || IsPipSelfUpgrade(cmd)
  {
    if IsPipSelfUpgrade(cmd) then
      assert UpgradeLine[..6] == "RUN [\"";
      Some(PipSelfUpgrade)
    else ParseRunCommand(cmd)
  }

  // The lines `to_dockerfile` writes, without their "\n".

  function FromLine(v: string): string { "FROM python:" + v }

  const UpdateLine: string := "RUN [\"apt-get\", \"update\"]"

  const UpgradeLine: string :=
    "RUN [\"python\", " + "\"-m\", \"pip\", " + "\"install\", " + "\"--upgrade\", \"pip\"]"

  function VersionSuffix(op: string, v: Option<string>): string {
    if v.Some? then op + v.value else ""
  }

  function AptLine(name: string, version: Option<string>): string {
    "RUN [\"apt-get\"," + "\"install\"," + "\"-y\"," + "\"" + name + VersionSuffix("=", version) + "\"]"
  }

  function PipLine(name: string, version: Option<string>): string {
    "RUN [\"pip\"," + "\"install\"," + "\"" + name + VersionSuffix("==", version) + "\"]"
  }

  // Round trips.

  lemma FromLineRoundTrip(v: string)
    requires IsPythonVersion(v)
    ensures FromClauseVersion(FromLine(v)) == Some(v)
  {
    var rest := FromLine(v)[|"FROM python:"|..];
    assert rest == v;
    SpanIs(rest, IsPythonVersionChar, |v|);
  }

  /** The package tail written by `to_dockerfile` reads back as the same entry. */
  lemma PackageTailRoundTrip(name: string, version: Option<string>, op: string)
    requires IsName(name) && IsOptVersion(version)
    requires op == "=" || op == "=="
    ensures ParsePackageTail(name + VersionSuffix(op, version) + "\"]", op) == Some((name, version))
  {
    if version.Some? {
      assert name + VersionSuffix(op, version) + "\"]" == name + (op + (version.value + "\"]"));
      VersionedTailRoundTrip(name, version.value, op);
    } else {
      assert name + VersionSuffix(op, version) + "\"]" == name + "\"]";
      UnversionedTailRoundTrip(name, op);
    }
  }

  lemma UnversionedTailRoundTrip(name: string, op: string)
    requires IsName(name)
    requires op == "=" || op == "=="
    ensures ParsePackageTail(name + "\"]", op) == Some((name, None))
  {
    var s := name + "\"]";
    assert s[..|name|] == name && s[|name|..] == "\"]";
    SpanIs(s, IsNameChar, |name|);
    assert Expect("\"]", op) == None by { assert ("\"]")[0] != op[0]; }
  }

  lemma VersionedTailRoundTrip(name: string, v: string, op: string)
    requires IsName(name) && IsVersion(v)
    requires op == "=" || op == "=="
    ensures ParsePackageTail(name + (op + (v + "\"]")), op) == Some((name, Some(v)))
  {
    var w := v + "\"]";
    var tail := op + w;
    var s := name + tail;
    assert s[..|name|] == name && s[|name|..] == tail;
    assert tail[0] == '=';
    SpanIs(s, IsNameChar, |name|);
    assert OptSpace(tail) == tail;
    assert Expect(tail, op) == Some(w);
    assert w[..|v|] == v && w[|v|..] == "\"]";
    assert OptSpace(w) == w by { assert IsVersionChar(w[0]); }
    SpanIs(w, IsVersionChar, |v|);
  }

  /** A literal that differs from s at position i is not a prefix of s. */
  lemma ExpectMismatch(s: string, lit: string, i: nat)
    requires i < |lit| && i < |s| && s[i] != lit[i]
    ensures Expect(s, lit) == None
  {
  }

  lemma PipLineRoundTrip(name: string, version: Option<string>)
    requires IsName(name) && IsOptVersion(version)
    ensures ParseRunCommand(PipLine(name, version)) == Some(PipInstall(name, version))
  {
    PipInstallOfLine(name, version);
  }

  lemma PipInstallOfLine(name: string, version: Option<string>)
    requires IsName(name) && IsOptVersion(version)
    ensures ParsePipInstall(PipLine(name, version)) == Some((name, version))
  {
    var tail := name + VersionSuffix("==", version) + "\"]";
    RegroupSix("RUN [\"pip\",", "\"install\",", "\"", name, VersionSuffix("==", version), "\"]");
    PipInstallPrefix(tail);
    PackageTailRoundTrip(name, version, "==");
  }

  /** The pieces of a written line, grouped as the parser consumes them. */
  lemma RegroupSix(a: string, b: string, c: string, d: string, e: string, f: string)
    ensures a + b + c + d + e + f == a + (b + (c + (d + e + f)))
  {
    RegroupFour(a + b, c, d + e, f);
    assert a + b + c + d + e + f == (a + b) + c + (d + e) + f;
  }

  lemma RegroupSeven(a: string, b: string, c: string, d: string, e: string, f: string, g: string)
    ensures a + b + c + d + e + f + g == a + (b + (c + (d + (e + f + g))))
  {
    RegroupSix(a + b, c, d, e, f, g);
    RegroupFour(a, b, c + (d + (e + f + g)), []);
    assert c + (d + (e + f + g)) + [] == c + (d + (e + f + g));
  }

  lemma RegroupFour(a: string, b: string, c: string, d: string)
    ensures a + b + c + d == a + (b + (c + d))
  {
  }

  /** The prefix `to_dockerfile` writes before a pip package is consumed whole. */
  lemma PipInstallPrefix(tail: string)
    ensures ParsePipInstall("RUN [\"pip\"," + ("\"install\"," + ("\"" + tail))) == ParsePackageTail(tail, "==")
  {
    var c := "\"" + tail;
    var b := "\"install\"," + c;
    ExpectConcat("RUN [\"pip\",", b);
    assert OptSpace(b) == b && Expect(b, "\"install\",") == Some(c);
    assert OptSpace(c) == c && Expect(c, "\"") == Some(tail);
  }

  lemma AptLineRoundTrip(name: string, version: Option<string>)
    requires IsName(name) && IsOptVersion(version)
    ensures ParseRunCommand(AptLine(name, version)) == Some(AptInstall(name, version))
  {
    var line := AptLine(name, version);
    assert line[6] == 'a';
    ExpectMismatch(line, "RUN [\"pip\",", 6);
    AptInstallOfLine(name, version);
  }

  lemma AptInstallOfLine(name: string, version: Option<string>)
    requires IsName(name) && IsOptVersion(version)
    ensures ParseAptInstall(AptLine(name, version)) == Some((name, version))
  {
    var tail := name + VersionSuffix("=", version) + "\"]";
    RegroupSeven("RUN [\"apt-get\",", "\"install\",", "\"-y\",", "\"", name, VersionSuffix("=", version), "\"]");
    AptInstallPrefix(tail);
    PackageTailRoundTrip(name, version, "=");
  }

  /** The prefix `to_dockerfile` writes before an apt package is consumed whole. */
  lemma AptInstallPrefix(tail: string)
    ensures ParseAptInstall("RUN [\"apt-get\"," + ("\"install\"," + ("\"-y\"," + ("\"" + tail))))
         == ParsePackageTail(tail, "=")
  {
    var d := "\"" + tail;
    var c := "\"-y\"," + d;
    var b := "\"install\"," + c;
    assert OptSpace(b) == b && Expect(b, "\"install\",") == Some(c);
    assert OptSpace(c) == c && Expect(c, "\"-y\",") == Some(d);
    assert Expect(d, "\"") == Some(tail);
  }

  lemma UpdateLineRecognised()
    ensures ParseRunCommand(UpdateLine) == Some(AptUpdate)
  {
    var lit, rest := "RUN [\"apt-get\",", " \"update\"]";
    assert UpdateLine == lit + rest;
    ExpectConcat(lit, rest);
    ExpectMismatch(UpdateLine, "RUN [\"pip\",", 6);
    var a := "\"update\"]";
    assert OptSpace(rest) == a;
    ExpectMismatch(a, "\"install\",", 1);
    assert a == "\"update\"" + "]";
    ExpectConcat("\"update\"", "]");
  }

  /** The pip self-upgrade line `to_dockerfile` writes is not a RUN command any
      of the four patterns accepts. */
  lemma UpgradeLineRejected()
    ensures ParseRunCommand(UpgradeLine) == None
  {
    ExpectMismatch(UpgradeLine, "RUN [\"pip\",", 7);
    ExpectMismatch(UpgradeLine, "RUN [\"apt-get\",", 6);
  }
}
