/** The parts of `Miner` (pyexec/mining/miner.py) that turn a package's
    metadata and checked-out project into results: finding the GitHub
    repository in the PyPI links, the two ways of getting a build
    specification, and the choice between them during checkout.

    The methods below are those of `Miner`; they use none of its fields except
    the compiled GitHub pattern, which is spelled out here. What the project
    directory holds is a parameter. */
module Miner {
  import opened Wrappers
  import opened Text
  import opened DepTable
  import opened Dependencies
  import opened DockerfileGrammar
  import InferDependencys
  import ExtraDependencies
  import InferFromPipfile
  import PackageInfo

  // The pattern `(http[s]?://)?(www.)?github.com/([^/]*)/(.*)`, compiled with
  // IGNORECASE and applied with `match`, so anchored at the start only.
  //
  // It is recognised without backtracking. Each optional part starts with a
  // letter ('h', 's', 'w') that differs, case aside, from the first character
  // of what follows it in the pattern (':' or 'g'), so when the optional part
  // matches, skipping it cannot lead to a match instead. `[^/]*` is followed
  // by '/', which it cannot consume, so its greedy run is its only run.

  /** One pattern character against one input character: `.` is anything but
      "\n"; every other character compares without case. */
  predicate PatternChar(p: char, c: char) {
    if p == '.' then c != '\n' else SameLetter(p, c)
  }

  /** The pattern text at the start of s, and what follows it. */
  function Literal(s: string, pat: string): (r: Option<string>)
    ensures r.Some? <==> |pat| <= |s| && forall k :: 0 <= k < |pat| ==> PatternChar(pat[k], s[k])
    ensures r.Some? ==> r.value == s[|pat|..]
  {
    if |pat| <= |s| && forall k :: 0 <= k < |pat| ==> PatternChar(pat[k], s[k]) then Some(s[|pat|..]) else None
  }

  /** Any text matches itself as a pattern. */
  lemma LiteralPrefix(pat: string, rest: string)
    ensures Literal(pat + rest, pat) == Some(rest)
  {
    assert (pat + rest)[|pat|..] == rest;
    forall k | 0 <= k < |pat| ensures PatternChar(pat[k], (pat + rest)[k]) {
      assert (pat + rest)[k] == pat[k];
    }
  }

  /** `(pat)?` */
  function Optional(s: string, pat: string): string {
    match Literal(s, pat)
    case Some(rest) => rest
    case None => s
  }

  /** `(http[s]?://)?` */
  function SkipScheme(s: string): (r: string)
    ensures |r| == |s| || |r| + 7 == |s| || |r| + 8 == |s|
    ensures Literal(s, "http").None? ==> r == s
  {
    match Literal(s, "http")
    case None => s
    case Some(afterHttp) =>
      match Literal(Optional(afterHttp, "s"), "://")
      case Some(rest) => rest
      case None => s
  }

  /** What is left after the scheme is the end of the text. */
  lemma SkipSchemeSuffix(s: string)
    ensures SkipScheme(s) == s[|s| - |SkipScheme(s)|..]
  {
    var a := Literal(s, "http");
    if a.Some? {
      var b := Optional(a.value, "s");
      assert b == a.value || b == a.value[1..];
    }
  }

  predicate NotSlash(c: char) { c != '/' }

  /** The pattern's groups 3 and 4: the text up to the first "/" after
      "github.com/", and the rest of the line after that "/". */
  function GithubMatch(s: string): (r: Option<(string, string)>)
    ensures r.Some? ==> '/' !in r.value.0 && '\n' !in r.value.1
  {
    HostMatch(Optional(SkipScheme(s), "www."))
  }

  /** Groups 3 and 4 once the scheme and "www." are skipped. */
  function HostMatch(host: string): (r: Option<(string, string)>)
    ensures r.Some? ==> '/' !in r.value.0 && '\n' !in r.value.1
  {
    match Literal(host, "github.com/")
    case None => None
    case Some(path) =>
      var n := Span(path, NotSlash);
      if n == |path| then None
      else
        assert forall k :: 0 <= k < n ==> path[..n][k] == path[k];
        Some((path[..n], Before(path[n + 1..], '\n')))
  }

  /** One field of the first loop of `__extract_repository_path`: trailing
      slashes stripped, the pattern matched, and each group cut at its first
      "/". */
  function RepositoryPath(url: string): (r: Option<(string, string)>)
    ensures r.Some? ==> '/' !in r.value.0 && '/' !in r.value.1 && '\n' !in r.value.1
  {
    match GithubMatch(RStripSlash(url))
    case None => None
    case Some((user, name)) =>
      var repo := Before(name, '/');
      assert forall k :: 0 <= k < |repo| ==> repo[k] == name[k];
      Some((Before(user, '/'), repo))
  }

  /** The link to a repository page. */
  function GithubUrl(user: string, name: string): string {
    "https://github.com/" + user + "/" + name
  }

  lemma BeforeAbsent(s: string, c: char)
    requires c !in s
    ensures Before(s, c) == s
  {
  }

  lemma StripNoSlash(s: string)
    requires s != [] && s[|s| - 1] != '/'
    ensures RStripSlash(s) == s && RStripSlash(s + "/") == s
  {
    var r := RStripSlash(s + "/");
    assert |r| != |s| + 1;
    assert r == (s + "/")[..|r|];
  }

  /** The user and repository read from "github.com/" + user + "/" + name + tail,
      once the scheme and "www." are skipped, for a user without "/" and a
      name without "/" or "\n". */
  lemma PathGroups(user: string, name: string, tail: string)
    requires '/' !in user && '/' !in name && '\n' !in name
    requires tail == [] || tail[0] == '/'
    ensures Literal("github.com/" + user + "/" + name + tail, "github.com/") == Some(user + "/" + name + tail)
    ensures var path := user + "/" + name + tail;
      Span(path, NotSlash) == |user| && path[..|user|] == user
      && Before(Before(path[|user| + 1..], '\n'), '/') == name
  {
    var path := user + "/" + name + tail;
    assert "github.com/" + user + "/" + name + tail == "github.com/" + path;
    LiteralPrefix("github.com/", path);
    UserGroup(user, name + tail);
    assert user + "/" + (name + tail) == path;
    NameFromRest(name, tail);
  }

  /** Group 3 stops at the "/" after the user. */
  lemma UserGroup(user: string, rest: string)
    requires '/' !in user
    ensures var path := user + "/" + rest;
      Span(path, NotSlash) == |user| && path[..|user|] == user && path[|user| + 1..] == rest
  {
    var path := user + "/" + rest;
    assert path == user + ("/" + rest);
    SpanConcat(user, "/" + rest, NotSlash);
    assert path[|user| + 1..] == rest;
  }

  /** Group 4 cut at its first "/" is the repository name. */
  lemma NameFromRest(name: string, tail: string)
    requires '/' !in name && '\n' !in name
    requires tail == [] || tail[0] == '/'
    ensures Before(Before(name + tail, '\n'), '/') == name
  {
    BeforeSkips(name, '\n', tail);
    if tail == [] {
      assert name + [] == name;
      BeforeAbsent(name, '/');
    } else {
      var x := Before(tail[1..], '\n');
      assert Before(tail, '\n') == "/" + x;
      assert name + ("/" + x) == name + "/" + x;
      BeforeFirst(name, '/', x);
    }
  }

  /** Cutting at c passes over a text without c. */
  lemma {:induction false} BeforeSkips(a: string, c: char, b: string)
    requires c !in a
    ensures Before(a + b, c) == a + Before(b, c)
    decreases |a|
  {
    if a != [] {
      assert (a + b)[1..] == a[1..] + b;
      BeforeSkips(a[1..], c, b);
      assert a == [a[0]] + a[1..];
    } else {
      assert a + b == b;
    }
  }

  /** "https://" is skipped as a whole. */
  lemma SchemeSkipped(rest: string)
    ensures SkipScheme("https://" + rest) == rest
  {
    var url := "https://" + rest;
    assert url == "http" + ("s://" + rest);
    LiteralPrefix("http", "s://" + rest);
    LiteralPrefix("s", "://" + rest);
    LiteralPrefix("://", rest);
  }

  /** An optional part whose first character does not match is skipped. */
  lemma NotOptional(s: string, pat: string)
    requires s != [] && pat != [] && !PatternChar(pat[0], s[0])
    ensures Optional(s, pat) == s
  {
  }

  /** Once the scheme and "www." are skipped, the groups come from the path. */
  lemma MatchAfterHost(s: string, user: string, name: string, tail: string)
    requires '/' !in user && '/' !in name && '\n' !in name
    requires tail == [] || tail[0] == '/'
    requires Optional(SkipScheme(s), "www.") == "github.com/" + user + "/" + name + tail
    ensures GithubMatch(s).Some? && GithubMatch(s).value.0 == user && Before(GithubMatch(s).value.1, '/') == name
  {
    HostGroups(user, name, tail);
  }

  lemma HostGroups(user: string, name: string, tail: string)
    requires '/' !in user && '/' !in name && '\n' !in name
    requires tail == [] || tail[0] == '/'
    ensures var r := HostMatch("github.com/" + user + "/" + name + tail);
      r.Some? && r.value.0 == user && Before(r.value.1, '/') == name
  {
    PathGroups(user, name, tail);
  }

  /** A repository link, with or without a trailing slash, gives back its
      user and repository name. */
  lemma UrlRoundTrip(user: string, name: string)
    requires '/' !in user && '/' !in name && '\n' !in name && name != []
    ensures RepositoryPath(GithubUrl(user, name)) == Some((user, name))
    ensures RepositoryPath(GithubUrl(user, name) + "/") == Some((user, name))
  {
    var url := GithubUrl(user, name);
    StripNoSlash(url);
    HostSkipped(user, name);
    MatchAfterHost(url, user, name, []);
    BeforeAbsent(user, '/');
  }

  lemma HostSkipped(user: string, name: string)
    ensures Optional(SkipScheme(GithubUrl(user, name)), "www.") == "github.com/" + user + "/" + name + []
  {
    var rest := "github.com/" + user + "/" + name;
    assert GithubUrl(user, name) == "https://" + rest;
    SchemeSkipped(rest);
    NotOptional(rest, "www.");
    assert rest + [] == rest;
  }

  /** A link into a repository ("github.com/u/r/tree/x") gives the repository
      itself: both groups are cut at their first "/". */
  lemma SubpageGivesRepository(user: string, name: string, subpath: string)
    requires '/' !in user && '/' !in name && '\n' !in name
    requires subpath != [] && subpath[|subpath| - 1] != '/'
    ensures RepositoryPath("github.com/" + user + "/" + name + "/" + subpath) == Some((user, name))
  {
    var tail := "/" + subpath;
    var url := "github.com/" + user + "/" + name + tail;
    assert url == "github.com/" + user + "/" + name + "/" + subpath;
    StripNoSlash(url);
    assert SkipScheme(url) == url by {
      assert !PatternChar("http"[0], url[0]);
    }
    NotOptional(url, "www.");
    MatchAfterHost(url, user, name, tail);
    BeforeAbsent(user, '/');
  }

  /** `match` is anchored: a string that starts with a letter none of
      "http", "www." and "github.com" start with is not a GitHub link, even
      when one follows later. */
  lemma AnchoredAtStart(s: string)
    requires s != [] && IsAsciiLetter(s[0])
    requires !SameLetter(s[0], 'h') && !SameLetter(s[0], 'w') && !SameLetter(s[0], 'g')
    ensures RepositoryPath(s) == None
  {
    var r := RStripSlash(s);
    assert r[0] == s[0];
    assert !PatternChar("http"[0], r[0]);
    assert !PatternChar("www."[0], r[0]);
    assert !PatternChar("github.com/"[0], r[0]);
  }

  /** The first field for which `path` finds a repository decides. */
  function FirstMatch(fields: seq<string>, path: string -> Option<(string, string)>): (r: Option<(string, string)>)
    ensures r.None? <==> forall i :: 0 <= i < |fields| ==> path(fields[i]).None?
    ensures r.Some? ==> exists i :: 0 <= i < |fields| && r == path(fields[i])
                                    && forall j :: 0 <= j < i ==> path(fields[j]).None?
  {
    if fields == [] then None
    else if path(fields[0]).Some? then path(fields[0])
    else
      var r := FirstMatch(fields[1..], path);
      assert forall i :: 1 <= i < |fields| ==> fields[1..][i - 1] == fields[i];
      r
  }

  /** `__extract_repository_path`, first loop: "home_page" is tried before
      "download_url", and the first match returns the two groups, each cut at
      its first "/". */
  method ExtractRepositoryPath(homePage: string, downloadUrl: string) returns (r: Option<(string, string)>)
    ensures r == FirstMatch([homePage, downloadUrl], RepositoryPath)
  {
    var fields := [homePage, downloadUrl];
    for i := 0 to |fields|
      invariant FirstMatch(fields, RepositoryPath) == FirstMatch(fields[i..], RepositoryPath)
    {
      var matches := GithubMatch(RStripSlash(fields[i]));
      if matches.Some? {
        var (user, name) := matches.value;
        return Some((Before(user, '/'), Before(name, '/')));
      }
      assert RepositoryPath(fields[i]).None?;
      assert fields[i..][1..] == fields[i + 1..];
    }
    return None;
  }

  /** A link in the home page wins over one in the download URL. */
  lemma HomePageFirst(homePage: string, downloadUrl: string)
    ensures RepositoryPath(homePage).Some? ==> FirstMatch([homePage, downloadUrl], RepositoryPath) == RepositoryPath(homePage)
    ensures RepositoryPath(homePage).None? ==> FirstMatch([homePage, downloadUrl], RepositoryPath) == RepositoryPath(downloadUrl)
  {
    assert [homePage, downloadUrl][1..] == [downloadUrl];
    assert [downloadUrl][1..] == [];
  }

  // Getting a build specification.

  /** What `_run_v2` returns, as a specification: the constructor's exceptions
      propagate; the inference runs without a timeout; NoEnvironmentFoundException
      and TimeoutException become None and any other exception propagates. */
  function V2Outcome(present: bool, isDir: bool, files: seq<string>,
                     probe: (string, Option<int>) -> InferDependencys.Probe,
                     elapsed: (nat, bool) -> real): (r: Result<Option<Spec>>)
    ensures r.Err? ==> r.error in {DirectoryNotFoundException, NotADirectoryException, InvalidFormatException}
  {
    if !present then Err(DirectoryNotFoundException)
    else if !isDir then Err(NotADirectoryException)
    else
      match InferDependencys.InferOutcome(files, None, probe, elapsed, InferDependencys.ReadOutput)
      case Ok(s) => Ok(Some(s))
      case Err(e) =>
        if e == NoEnvironmentFoundException || e == TimeoutException then Ok(None) else Err(e)
  }

  /** Without a timeout, `_run_v2` gives None exactly when some file has no
      environment; only an empty project ends in InvalidFormatException. */
  lemma V2NoneMeansNoEnvironment(files: seq<string>, probe: (string, Option<int>) -> InferDependencys.Probe,
                                 elapsed: (nat, bool) -> real)
    ensures V2Outcome(true, true, files, probe, elapsed) == Ok(None) <==>
      InferDependencys.InferOutcome(files, None, probe, elapsed, InferDependencys.ReadOutput) == Err(NoEnvironmentFoundException)
    ensures files == [] ==> V2Outcome(true, true, files, probe, elapsed) == Err(InvalidFormatException)
  {
    InferDependencys.NoLimitNeverTimesOut(files, probe, elapsed, InferDependencys.ReadOutput);
    InferDependencys.NoFilesInvalid(None, probe, elapsed, InferDependencys.ReadOutput);
  }

  /** `_run_v2` as written. It passes its `Path` to the `InferDockerfile`
      constructor, which expects a str. For a missing path or a non-directory,
      the constructor builds its message as str + Path, which raises TypeError.
      For a directory, a Path has no `rstrip`, which raises AttributeError.
      Neither is caught, so the call to `infer_dockerfile`, which the class
      does not define either, is never reached. V2Outcome is the intended call,
      and the rest of the model uses it. */
  function V2OutcomeAsWritten(present: bool, isDir: bool): (r: Result<Option<Spec>>)
    ensures r.Err? && r.error in {TypeError, AttributeError}
    ensures r.Err? && r.error == AttributeError <==> present && isDir
  {
    if present && isDir then Err(AttributeError) else Err(TypeError)
  }

  /** As written, the checkout step raises for every project, so neither "V2"
      nor "Extras" is ever recorded. With the intended call, a project whose
      probe finds no environment falls back to its extra dependencies. */
  lemma CheckoutAsWrittenRaises(info: PackageInfo.PackageInfo, files: seq<string>,
                                probe: (string, Option<int>) -> InferDependencys.Probe,
                                elapsed: (nat, bool) -> real, s: Spec)
    requires InferDependencys.InferOutcome(files, None, probe, elapsed, InferDependencys.ReadOutput)
             == Err(NoEnvironmentFoundException)
    ensures Selected(info, V2OutcomeAsWritten(true, true), Ok(Some(s))) == Err(AttributeError)
    ensures Selected(info, V2Outcome(true, true, files, probe, elapsed), Ok(Some(s)))
            == Ok(info.(dockerfile := Some(s), dockerfileSource := Some("Extras")))
  {
  }

  /** With the intended call, checkout of a project directory raises only the
      merge's InvalidFormatException or the fallback's own exception. */
  lemma CheckoutCorrected(info: PackageInfo.PackageInfo, files: seq<string>,
                          probe: (string, Option<int>) -> InferDependencys.Probe,
                          elapsed: (nat, bool) -> real, extras: Result<Option<Spec>>)
    ensures var r := Selected(info, V2Outcome(true, true, files, probe, elapsed), extras);
            r.Err? ==> r.error == InvalidFormatException || extras == Err(r.error)
  {
  }

  lemma ThreeEightIsVersion()
    ensures IsPythonVersion("3.8")
  {
    assert forall k :: 0 <= k < 3 ==> IsPythonVersionChar("3.8"[k]);
  }

  /** What `_get_extra_dependencies` returns, as a specification: None for an
      empty mapping, otherwise a Python 3.8 specification whose pip table is the
      mapping. */
  function ExtrasOutcome(present: bool, isDir: bool, pipfile: Option<string>, requirements: Option<string>)
    : (r: Result<Option<Spec>>)
    ensures r.Err? ==> r.error == ValueError || r.error == KeyError
    ensures r.Ok? && r.value.Some? ==>
      ValidSpec(r.value.value) && r.value.value.pythonVersion == "3.8" && r.value.value.apt == []
      && r.value.value.pip != []
      && r.value.value.copy.None? && r.value.value.workdir.None? && r.value.value.cmd.None?
  {
    if !present || !isDir then Err(ValueError)
    else
      match ExtraDependencies.ExtraDependenciesOf(pipfile, requirements)
      case Err(e) => Err(e)
      case Ok(table) =>
        if table == [] then Ok(None)
        else
          ThreeEightIsVersion();
          Ok(Some(Spec("3.8", [], table, None, None, None)))
  }

  /** The fallback's pip table is the one the extra sources give: the Pipfile's
      when it has entries, otherwise the requirements file's. */
  lemma ExtrasFromFallback(pipfile: Option<string>, requirements: Option<string>)
    requires pipfile.None? || InferFromPipfile.PipfileDependencies(pipfile.value, false).Ok?
    ensures var fromPipfile := if pipfile.Some? then InferFromPipfile.PipfileDependencies(pipfile.value, false).value else [];
      ExtrasOutcome(true, true, pipfile, requirements).Ok?
      && (fromPipfile != [] ==> ExtrasOutcome(true, true, pipfile, requirements).value == Some(Spec("3.8", [], fromPipfile, None, None, None)))
  {
    ExtraDependencies.FallbackOrder(pipfile, requirements);
  }

  /** `_run_v2(projectdir)` */
  method RunV2(path: string, present: bool, isDir: bool, files: seq<string>,
               probe: (string, Option<int>) -> InferDependencys.Probe, elapsed: (nat, bool) -> real)
    returns (r: Result<Option<Dependencies>>)
    ensures r.Err? <==> V2Outcome(present, isDir, files, probe, elapsed).Err?
    ensures r.Err? ==> r.error == V2Outcome(present, isDir, files, probe, elapsed).error
    ensures r.Ok? ==> (r.value.Some? <==> V2Outcome(present, isDir, files, probe, elapsed).value.Some?)
    ensures r.Ok? && r.value.Some? ==>
      fresh(r.value.value) && r.value.value.Model() == V2Outcome(present, isDir, files, probe, elapsed).value.value
  {
    var inferer := InferDependencys.InferDockerfile.Open(path, present, isDir);
    if inferer.Err? {
      return Err(inferer.error);
    }
    var inferred := inferer.value.InferDockerfile(files, None, probe, elapsed);
    if inferred.Ok? {
      return Ok(Some(inferred.value));
    }
    if inferred.error == NoEnvironmentFoundException || inferred.error == TimeoutException {
      return Ok(None);
    }
    return Err(inferred.error);
  }

  /** `_get_extra_dependencies(projectdir)`: a fresh "FROM python:3.8"
      instance gets every entry of the mapping, in order, through
      `add_pip_dependency`. */
  method GetExtraDependencies(present: bool, isDir: bool, pipfile: Option<string>, requirements: Option<string>)
    returns (r: Result<Option<Dependencies>>)
    ensures r.Err? <==> ExtrasOutcome(present, isDir, pipfile, requirements).Err?
    ensures r.Err? ==> r.error == ExtrasOutcome(present, isDir, pipfile, requirements).error
    ensures r.Ok? ==> (r.value.Some? <==> ExtrasOutcome(present, isDir, pipfile, requirements).value.Some?)
    ensures r.Ok? && r.value.Some? ==>
      fresh(r.value.value) && r.value.value.Model() == ExtrasOutcome(present, isDir, pipfile, requirements).value.value
  {
    var extra := ExtraDependencies.ExtraDependencies.Open(present, isDir, pipfile, requirements);
    if extra.Err? {
      return Err(extra.error);
    }
    var deps := extra.value.GetExtraDependencies();
    if deps.Err? {
      return Err(deps.error);
    }
    var table := deps.value;
    if table == [] {
      return Ok(None);
    }
    ThreeEightIsVersion();
    FromLineRoundTrip("3.8");
    var created := Dependencies.New(FromLine("3.8"));
    var df := created.value;
    AddPipDependencies(df, table);
    MergeIntoEmpty(table);
    return Ok(Some(df));
  }

  /** The loop of `_get_extra_dependencies`: `add_pip_dependency` for every
      entry, in order. */
  method AddPipDependencies(df: Dependencies, table: Table)
    modifies df
    ensures df.Model() == old(df.Model()).(pip := MergeTables(old(df.pipInstalls), table))
  {
    ghost var base := df.pipInstalls;
    for i := 0 to |table|
      invariant df.Model() == old(df.Model()).(pip := MergeTables(base, table[..i]))
    {
      df.AddPipDependency(table[i].0, table[i].1);
      assert table[..i + 1][..i] == table[..i];
    }
    assert table[..|table|] == table;
  }

  // Choosing the build specification in `__checkout`.

  /** The record after the choice: the probe's specification with source
      "V2"; failing that, the fallback's with source "Extras"; failing both,
      no specification, and checkout stops there. An exception from either
      step ends checkout. */
  function Selected(info: PackageInfo.PackageInfo, v2: Result<Option<Spec>>, extras: Result<Option<Spec>>)
    : (r: Result<PackageInfo.PackageInfo>)
    ensures r.Err? <==> v2.Err? || (v2 == Ok(None) && extras.Err?)
    ensures r.Ok? ==> r.value == info.(dockerfile := r.value.dockerfile, dockerfileSource := r.value.dockerfileSource)
    ensures r.Ok? ==> (r.value.dockerfileSource == Some("V2") && v2.value.Some? && r.value.dockerfile == v2.value)
                      || (r.value.dockerfileSource == Some("Extras") && v2.value.None? && r.value.dockerfile == extras.value && extras.value.Some?)
                      || (r.value.dockerfile.None? && r.value.dockerfileSource == info.dockerfileSource
                          && v2.value.None? && extras.value.None?)
  {
    match v2
    case Err(e) => Err(e)
    case Ok(Some(s)) => Ok(info.(dockerfile := Some(s), dockerfileSource := Some("V2")))
    case Ok(None) =>
      match extras
      case Err(e) => Err(e)
      case Ok(None) => Ok(info.(dockerfile := None))
      case Ok(Some(s)) => Ok(info.(dockerfile := Some(s), dockerfileSource := Some("Extras")))
  }

  /** Once the probe gives a specification, the fallback plays no part. */
  lemma V2TakesPriority(info: PackageInfo.PackageInfo, s: Spec, extras1: Result<Option<Spec>>, extras2: Result<Option<Spec>>)
    ensures Selected(info, Ok(Some(s)), extras1) == Selected(info, Ok(Some(s)), extras2)
    ensures Selected(info, Ok(Some(s)), extras1) == Ok(info.(dockerfile := Some(s), dockerfileSource := Some("V2")))
  {
  }

  /** The step of `__checkout` that fills `dockerfile` and `dockerfile_source`. */
  method SelectDockerfile(info: PackageInfo.PackageInfo, path: string, present: bool, isDir: bool, files: seq<string>,
                          probe: (string, Option<int>) -> InferDependencys.Probe, elapsed: (nat, bool) -> real,
                          pipfile: Option<string>, requirements: Option<string>)
    returns (r: Result<PackageInfo.PackageInfo>)
    ensures r == Selected(info, V2Outcome(present, isDir, files, probe, elapsed),
                          ExtrasOutcome(present, isDir, pipfile, requirements))
  {
    var v2 := RunV2(path, present, isDir, files, probe, elapsed);
    if v2.Err? {
      return Err(v2.error);
    }
    if v2.value.Some? {
      var spec := v2.value.value.Model();
      return Ok(info.(dockerfile := Some(spec), dockerfileSource := Some("V2")));
    }
    var updated := info.(dockerfile := None);
    var extras := GetExtraDependencies(present, isDir, pipfile, requirements);
    if extras.Err? {
      return Err(extras.error);
    }
    if extras.value.None? {
      return Ok(updated);
    }
    var spec := extras.value.value.Model();
    return Ok(updated.(dockerfile := Some(spec), dockerfileSource := Some("Extras")));
  }
}
