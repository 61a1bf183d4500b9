/** `InferDockerfile` (pyexec/dependencyInference/inferDependencys.py): the
    driver that runs the `v2` probe on every Python file of a project, turns
    each probe's output into a build specification, and merges them.

    The file list (the output of `find`), the probe and the clock are inputs:
    - `probe(file, limit)` is what launching `v2` on `file` gives, `OSError`
      or its standard output, under the time limit `limit` (None = no limit);
    - `elapsed(i, false)` and `elapsed(i, true)` are the seconds since the start
      of the run as read just before and just after the probe of file i. */
module InferDependencys {
  import opened Wrappers
  import opened Text
  import opened Dependencies
  import opened DockerfileGrammar

  /** What launching the probe gives. */
  datatype Probe = OSError | Stdout(out: string)

  /** Python's `int(x)` on a float: truncation toward zero. */
  function Trunc(x: real): (n: int)
    ensures 0.0 <= x ==> n as real <= x < n as real + 1.0
    ensures x < 0.0 ==> n as real - 1.0 < x <= n as real
  {
    if 0.0 <= x then x.Floor else -((-x).Floor)
  }

  /** How the probe's output is read: `from_dockerfile` with its default of
      dropping COPY, WORKDIR and CMD lines. The functions below take the reader
      as a parameter `parse`, which the class instantiates with this one. */
  function ReadOutput(out: string): (r: Result<Spec>)
    ensures r.Ok? ==> r.value.copy.None? && r.value.workdir.None? && r.value.cmd.None?
    ensures r.Err? ==> r.error == InvalidFormatException
  {
    ParseDockerfile(out, true)
  }

  /** The post-processing of `__execute_v2`: output whose first line starts with
      "FROM python:" is read by `parse`; an OSError, any other output and a
      rejected Dockerfile give None. */
  function Classify(p: Probe, parse: string -> Result<Spec>): (r: Option<Spec>)
    ensures r.Some? ==> p.Stdout? && parse(p.out) == Ok(r.value)
    ensures r.Some? ==> SplitLines(p.out) != [] && "FROM python:" <= SplitLines(p.out)[0]
  {
    match p
    case OSError => None
    case Stdout(out) =>
      var lines := SplitLines(out);
      if |lines| >= 1 && "FROM python:" <= lines[0] then
        match parse(out)
        case Ok(s) => Some(s)
        case Err(_) => None
      else None
  }

  /** With `from_dockerfile` as the reader, the test on the first line is
      implied by the parser's own: the output is accepted exactly when
      `from_dockerfile` accepts it. */
  lemma ClassifyIsParse(out: string)
    ensures Classify(Stdout(out), ReadOutput) == match ParseDockerfile(out, true)
      case Ok(s) => Some(s)
      case Err(_) => None
  {
    var parsed := ParseDockerfile(out, true);
    if parsed.Ok? {
      var line := SplitLines(out)[0];
      var v := parsed.value.pythonVersion;
      assert line == FromLine(v) || line == FromLine(v) + "\n";
      assert "FROM python:" <= line by {
        assert "FROM python:" <= FromLine(v);
      }
    }
  }

  /** The time limit a file is probed with: Some(None) for a run without
      timeout, Some(Some(t)) with the whole seconds left, and None when the
      budget is spent and the file is not probed at all. */
  function Budget(timeout: Option<int>, before: real): (b: Option<Option<int>>)
    ensures timeout.None? ==> b == Some(None)
    ensures timeout.Some? ==> (b.Some? <==> before < timeout.value as real)
    ensures timeout.Some? && b.Some? ==>
      (b.value.Some? && 0 <= b.value.value
       && b.value.value as real <= timeout.value as real - before < b.value.value as real + 1.0)
  {
    if timeout.None? then Some(None)
    else if before < timeout.value as real then Some(Some(Trunc(timeout.value as real - before)))
    else None
  }

  /** What the loop holds in `df` for one file. */
  function FileOutcome(file: string, timeout: Option<int>, probe: (string, Option<int>) -> Probe, before: real,
                       parse: string -> Result<Spec>): (r: Option<Spec>)
    ensures timeout.Some? && timeout.value as real <= before ==> r.None?
    ensures r.Some? ==>
      var b := Budget(timeout, before);
      b.Some? && probe(file, b.value).Stdout? && parse(probe(file, b.value).out) == Ok(r.value)
  {
    match Budget(timeout, before)
    case None => None
    case Some(limit) => Classify(probe(file, limit), parse)
  }

  /** The check after each file (two seconds of slack for measurement error). */
  predicate TimedOut(timeout: Option<int>, after: real)
    ensures timeout.None? ==> !TimedOut(timeout, after)
    ensures timeout.Some? && 0.0 <= after ==> (TimedOut(timeout, after) <==> (timeout.value - 2) as real <= after)
  {
    timeout.Some? && Trunc(after) + 2 >= timeout.value
  }

  /** File i neither ran out of time nor failed to give a specification. */
  predicate Passes(files: seq<string>, timeout: Option<int>, probe: (string, Option<int>) -> Probe,
                   elapsed: (nat, bool) -> real, parse: string -> Result<Spec>, i: nat)
    requires i < |files|
  {
    !TimedOut(timeout, elapsed(i, true)) && FileOutcome(files[i], timeout, probe, elapsed(i, false), parse).Some?
  }

  /** The file loop of `inferDockerfile` over the first n files, given for
      each file whether the time check after it fires (`late`) and what `df`
      holds for it (`outcome`): the specifications gathered, or the exception
      that ended the loop. */
  function Loop(n: nat, late: nat -> bool, outcome: nat -> Option<Spec>): (r: Result<seq<Spec>>)
    ensures r.Ok? ==> |r.value| == n
    ensures r.Err? ==> r.error == TimeoutException || r.error == NoEnvironmentFoundException
  {
    if n == 0 then Ok([])
    else
      match Loop(n - 1, late, outcome)
      case Err(e) => Err(e)
      case Ok(specs) =>
        if late(n - 1) then Err(TimeoutException)
        else if outcome(n - 1).None? then Err(NoEnvironmentFoundException)
        else Ok(specs + [outcome(n - 1).value])
  }

  /** No file is skipped: the loop gets through n files exactly when none of
      them is late or without a specification, and then holds their
      specifications in file order. */
  lemma {:induction false} LoopOk(n: nat, late: nat -> bool, outcome: nat -> Option<Spec>)
    ensures Loop(n, late, outcome).Ok? <==> forall i :: 0 <= i < n ==> !late(i) && outcome(i).Some?
    ensures Loop(n, late, outcome).Ok? ==>
      forall i :: 0 <= i < n ==> outcome(i).Some? && Loop(n, late, outcome).value[i] == outcome(i).value
  {
    if n > 0 {
      LoopOk(n - 1, late, outcome);
    }
  }

  /** Once the loop has raised, later files change nothing. */
  lemma {:induction false} LoopErrStays(m: nat, n: nat, late: nat -> bool, outcome: nat -> Option<Spec>)
    requires m <= n
    requires Loop(m, late, outcome).Err?
    ensures Loop(n, late, outcome) == Loop(m, late, outcome)
  {
    if m < n {
      LoopErrStays(m, n - 1, late, outcome);
    }
  }

  /** The first failing file decides the exception: TimeoutException when it is
      late, whatever its probe gave, and NoEnvironmentFoundException otherwise. */
  lemma LoopFirstFailure(n: nat, late: nat -> bool, outcome: nat -> Option<Spec>, i: nat)
    requires i < n
    requires forall j :: 0 <= j < i ==> !late(j) && outcome(j).Some?
    requires late(i) || outcome(i).None?
    ensures Loop(n, late, outcome) == Err(if late(i) then TimeoutException else NoEnvironmentFoundException)
  {
    LoopOk(i, late, outcome);
    LoopErrStays(i + 1, n, late, outcome);
  }

  /** One more file that passes extends the list by its specification. */
  lemma LoopStep(n: nat, late: nat -> bool, outcome: nat -> Option<Spec>, specs: seq<Spec>, s: Spec)
    requires Loop(n, late, outcome) == Ok(specs)
    requires !late(n) && outcome(n) == Some(s)
    ensures Loop(n + 1, late, outcome) == Ok(specs + [s])
  {
  }

  /** Whether the time check after file i fires. */
  function Late(timeout: Option<int>, elapsed: (nat, bool) -> real): nat -> bool {
    (i: nat) => TimedOut(timeout, elapsed(i, true))
  }

  /** What `df` holds for file i. */
  function Outcomes(files: seq<string>, timeout: Option<int>, probe: (string, Option<int>) -> Probe,
                    elapsed: (nat, bool) -> real, parse: string -> Result<Spec>): nat -> Option<Spec> {
    (i: nat) => if i < |files| then FileOutcome(files[i], timeout, probe, elapsed(i, false), parse) else None
  }

  /** `inferDockerfile(timeout)`: the loop, then `merge_dependencies`. */
  function InferOutcome(files: seq<string>, timeout: Option<int>, probe: (string, Option<int>) -> Probe,
                        elapsed: (nat, bool) -> real, parse: string -> Result<Spec>): (r: Result<Spec>)
    ensures r.Err? ==> r.error in {TimeoutException, NoEnvironmentFoundException, InvalidFormatException}
  {
    match Loop(|files|, Late(timeout, elapsed), Outcomes(files, timeout, probe, elapsed, parse))
    case Err(e) => Err(e)
    case Ok(specs) => MergeSpecs(specs)
  }

  /** The first file that does not pass ends the run: with TimeoutException when
      its time check fires, whatever its probe gave, and with
      NoEnvironmentFoundException otherwise. */
  lemma FirstFailureDecides(files: seq<string>, timeout: Option<int>, probe: (string, Option<int>) -> Probe,
                            elapsed: (nat, bool) -> real, parse: string -> Result<Spec>, i: nat)
    requires i < |files|
    requires forall j :: 0 <= j < i ==> Passes(files, timeout, probe, elapsed, parse, j)
    requires !Passes(files, timeout, probe, elapsed, parse, i)
    ensures InferOutcome(files, timeout, probe, elapsed, parse) ==
      Err(if TimedOut(timeout, elapsed(i, true)) then TimeoutException else NoEnvironmentFoundException)
  {
    var late, outcome := Late(timeout, elapsed), Outcomes(files, timeout, probe, elapsed, parse);
    assert forall j :: 0 <= j < i ==> !late(j) && outcome(j).Some? by {
      forall j | 0 <= j < i ensures !late(j) && outcome(j).Some? {
        assert Passes(files, timeout, probe, elapsed, parse, j);
      }
    }
    LoopFirstFailure(|files|, late, outcome, i);
  }

  /** A file reached after the budget is spent is not probed, and with a clock
      that does not run backwards the run then ends with TimeoutException. */
  lemma SpentBudgetTimesOut(files: seq<string>, timeout: Option<int>, probe: (string, Option<int>) -> Probe,
                            elapsed: (nat, bool) -> real, parse: string -> Result<Spec>, i: nat)
    requires i < |files| && timeout.Some?
    requires forall j :: 0 <= j < i ==> Passes(files, timeout, probe, elapsed, parse, j)
    requires timeout.value as real <= elapsed(i, false) <= elapsed(i, true)
    ensures FileOutcome(files[i], timeout, probe, elapsed(i, false), parse).None?
    ensures InferOutcome(files, timeout, probe, elapsed, parse) == Err(TimeoutException)
  {
    assert TimedOut(timeout, elapsed(i, true));
    FirstFailureDecides(files, timeout, probe, elapsed, parse, i);
  }

  /** A project without Python files raises the merge's InvalidFormatException,
      not NoEnvironmentFoundException. */
  lemma NoFilesInvalid(timeout: Option<int>, probe: (string, Option<int>) -> Probe, elapsed: (nat, bool) -> real,
                       parse: string -> Result<Spec>)
    ensures InferOutcome([], timeout, probe, elapsed, parse) == Err(InvalidFormatException)
  {
  }

  /** A loop whose time check never fires never ends in TimeoutException. */
  lemma {:induction false} LoopNeverLate(n: nat, late: nat -> bool, outcome: nat -> Option<Spec>)
    requires forall i: nat :: !late(i)
    ensures Loop(n, late, outcome) != Err(TimeoutException)
  {
    if n > 0 {
      LoopNeverLate(n - 1, late, outcome);
    }
  }

  /** Without a timeout no file is late, so the run can only end in
      NoEnvironmentFoundException or the merge's InvalidFormatException. */
  lemma NoLimitNeverTimesOut(files: seq<string>, probe: (string, Option<int>) -> Probe, elapsed: (nat, bool) -> real,
                             parse: string -> Result<Spec>)
    ensures InferOutcome(files, None, probe, elapsed, parse).Err? ==>
      InferOutcome(files, None, probe, elapsed, parse).error in {NoEnvironmentFoundException, InvalidFormatException}
  {
    var late := Late(None, elapsed);
    forall i: nat ensures !late(i) {
      assert late(i) == TimedOut(None, elapsed(i, true));
    }
    LoopNeverLate(|files|, late, Outcomes(files, None, probe, elapsed, parse));
  }

  /** A successful run got through every file. */
  lemma PassedEveryFile(files: seq<string>, timeout: Option<int>, probe: (string, Option<int>) -> Probe,
                        elapsed: (nat, bool) -> real, parse: string -> Result<Spec>)
    requires InferOutcome(files, timeout, probe, elapsed, parse).Ok?
    ensures forall i :: 0 <= i < |files| ==> Passes(files, timeout, probe, elapsed, parse, i)
  {
    var late, outcome := Late(timeout, elapsed), Outcomes(files, timeout, probe, elapsed, parse);
    LoopOk(|files|, late, outcome);
    forall i | 0 <= i < |files| ensures Passes(files, timeout, probe, elapsed, parse, i) {
      assert !late(i) && outcome(i).Some?;
    }
  }

  /** When every file passes with specification specs[i], the result is
      `merge_dependencies` of those specifications in file order. */
  lemma MergedInFileOrder(files: seq<string>, timeout: Option<int>, probe: (string, Option<int>) -> Probe,
                          elapsed: (nat, bool) -> real, parse: string -> Result<Spec>, specs: seq<Spec>)
    requires |specs| == |files|
    requires forall i :: 0 <= i < |files| ==>
      !TimedOut(timeout, elapsed(i, true)) && FileOutcome(files[i], timeout, probe, elapsed(i, false), parse) == Some(specs[i])
    ensures InferOutcome(files, timeout, probe, elapsed, parse) == MergeSpecs(specs)
  {
    var late, outcome := Late(timeout, elapsed), Outcomes(files, timeout, probe, elapsed, parse);
    assert forall i :: 0 <= i < |files| ==> !late(i) && outcome(i) == Some(specs[i]);
    LoopOk(|files|, late, outcome);
    var gathered := Loop(|files|, late, outcome).value;
    assert gathered == specs;
  }

  /** The file loop over the first n files of the run. */
  ghost function Probed(files: seq<string>, timeout: Option<int>, probe: (string, Option<int>) -> Probe,
                        elapsed: (nat, bool) -> real, n: nat): (r: Result<seq<Spec>>)
    ensures r.Ok? ==> |r.value| == n
  {
    Loop(n, Late(timeout, elapsed), Outcomes(files, timeout, probe, elapsed, ReadOutput))
  }

  /** A file that passes extends the loop's list by its specification. */
  lemma ProbedStep(files: seq<string>, timeout: Option<int>, probe: (string, Option<int>) -> Probe,
                   elapsed: (nat, bool) -> real, i: nat, specs: seq<Spec>, s: Spec)
    requires i < |files| && Probed(files, timeout, probe, elapsed, i) == Ok(specs)
    requires !TimedOut(timeout, elapsed(i, true))
    requires FileOutcome(files[i], timeout, probe, elapsed(i, false), ReadOutput) == Some(s)
    ensures Probed(files, timeout, probe, elapsed, i + 1) == Ok(specs + [s])
  {
    var late, outcome := Late(timeout, elapsed), Outcomes(files, timeout, probe, elapsed, ReadOutput);
    assert !late(i) && outcome(i) == Some(s);
    LoopStep(i, late, outcome, specs, s);
  }

  /** A file that does not pass, after files that did, decides the loop's exception. */
  lemma ProbedFails(files: seq<string>, timeout: Option<int>, probe: (string, Option<int>) -> Probe,
                    elapsed: (nat, bool) -> real, i: nat)
    requires i < |files| && Probed(files, timeout, probe, elapsed, i).Ok?
    requires TimedOut(timeout, elapsed(i, true)) || FileOutcome(files[i], timeout, probe, elapsed(i, false), ReadOutput).None?
    ensures Probed(files, timeout, probe, elapsed, |files|) ==
      Err(if TimedOut(timeout, elapsed(i, true)) then TimeoutException else NoEnvironmentFoundException)
  {
    var late, outcome := Late(timeout, elapsed), Outcomes(files, timeout, probe, elapsed, ReadOutput);
    assert late(i) == TimedOut(timeout, elapsed(i, true));
    assert outcome(i) == FileOutcome(files[i], timeout, probe, elapsed(i, false), ReadOutput);
    LoopErrStays(i + 1, |files|, late, outcome);
  }

  /** The state of the instance `df` refers to, if any. */
  ghost function SpecOf(df: Option<Dependencies>): Option<Spec>
    reads if df.Some? then {df.value} else {}
  {
    if df.Some? then Some(df.value.Model()) else None
  }

  class InferDockerfile {
    const projectPath: string

    constructor (path: string)
      ensures projectPath == RStripSlash(path)
    {
      projectPath := RStripSlash(path);
    }

    /** `InferDockerfile(projectPath)`: the path must exist and be a directory;
        the stored path has its trailing slashes removed. */
    static method Open(path: string, present: bool, isDir: bool) returns (r: Result<InferDockerfile>)
      ensures !present ==> r == Err(DirectoryNotFoundException)
      ensures present && !isDir ==> r == Err(NotADirectoryException)
      ensures present && isDir ==> r.Ok? && fresh(r.value) && r.value.projectPath == RStripSlash(path)
    {
      if !present {
        return Err(DirectoryNotFoundException);
      } else if !isDir {
        return Err(NotADirectoryException);
      }
      var d := new InferDockerfile(path);
      return Ok(d);
    }

    /** `inferDockerfile(timeout)` over the files `find` listed. */
    method InferDockerfile(files: seq<string>, timeout: Option<int>, probe: (string, Option<int>) -> Probe,
                           elapsed: (nat, bool) -> real) returns (r: Result<Dependencies>)
      ensures r.Err? <==> InferOutcome(files, timeout, probe, elapsed, ReadOutput).Err?
      ensures r.Err? ==> r.error == InferOutcome(files, timeout, probe, elapsed, ReadOutput).error
      ensures r.Ok? ==> fresh(r.value) && r.value.Model() == InferOutcome(files, timeout, probe, elapsed, ReadOutput).value
    {
      var probed := ProbeFiles(files, timeout, probe, elapsed);
      if probed.Err? {
        return Err(probed.error);
      }
      r := Dependencies.MergeDependencies(probed.value);
    }

    /** The file loop: probe each file in order, raising TimeoutException or
        NoEnvironmentFoundException at the first file that fails, and collect
        the new instances. */
    static method ProbeFiles(files: seq<string>, timeout: Option<int>, probe: (string, Option<int>) -> Probe,
                             elapsed: (nat, bool) -> real) returns (r: Result<seq<Dependencies>>)
      ensures var expected := Probed(files, timeout, probe, elapsed, |files|);
        (r.Err? <==> expected.Err?) && (r.Err? ==> r.error == expected.error)
        && (r.Ok? ==> Models(r.value) == expected.value)
    {
      var dependencies: seq<Dependencies> := [];
      for i := 0 to |files|
        invariant Probed(files, timeout, probe, elapsed, i) == Ok(Models(dependencies))
      {
        var df := ProbeFile(files[i], i, timeout, probe, elapsed);
        var isLate := CheckTime(timeout, elapsed(i, true));
        if isLate || df.None? {
          ProbedFails(files, timeout, probe, elapsed, i);
          return Err(if isLate then TimeoutException else NoEnvironmentFoundException);
        }
        ProbedStep(files, timeout, probe, elapsed, i, Models(dependencies), df.value.Model());
        ModelsSnoc(dependencies, df.value);
        dependencies := dependencies + [df.value];
      }
      return Ok(dependencies);
    }

    /** The time check after a file: whole seconds elapsed, plus two. */
    static method CheckTime(timeout: Option<int>, after: real) returns (late: bool)
      ensures late == TimedOut(timeout, after)
    {
      late := false;
      if timeout.Some? {
        var runtime := Trunc(after);
        late := runtime + 2 >= timeout.value;
      }
    }

    /** The first half of the loop body: the budget test and the probe, giving
        what `df` holds for the file. */
    static method ProbeFile(file: string, i: nat, timeout: Option<int>, probe: (string, Option<int>) -> Probe,
                            elapsed: (nat, bool) -> real) returns (df: Option<Dependencies>)
      ensures df.Some? ==> fresh(df.value)
      ensures SpecOf(df) == FileOutcome(file, timeout, probe, elapsed(i, false), ReadOutput)
    {
      if timeout.Some? {
        var runtime := elapsed(i, false);
        if runtime < timeout.value as real {
          var limit := Some(Trunc(timeout.value as real - runtime));
          assert Budget(timeout, runtime) == Some(limit);
          df := ExecuteV2(file, limit, probe);
        } else {
          df := None;
        }
      } else {
        df := ExecuteV2(file, None, probe);
      }
    }

    /** `__execute_v2(file, limit)`: launch the probe and classify its output. */
    static method ExecuteV2(file: string, limit: Option<int>, probe: (string, Option<int>) -> Probe)
      returns (df: Option<Dependencies>)
      ensures df.Some? ==> fresh(df.value)
      ensures SpecOf(df) == Classify(probe(file, limit), ReadOutput)
    {
      var outcome := probe(file, limit);
      if outcome.OSError? {
        return None;
      }
      var lines := SplitLines(outcome.out);
      if |lines| >= 1 && "FROM python:" <= lines[0] {
        var parsed := Dependencies.FromDockerfile(outcome.out, true);
        if parsed.Err? {
          return None;
        }
        return Some(parsed.value);
      }
      return None;
    }
  }
}
