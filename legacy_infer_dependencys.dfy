/** The older `InferDockerfile` (pyexec/dependencyInferrance/inferDependencys.py),
    which works on the probe's output as text: it keeps the stripped output of
    each run and merges the outputs line by line.

    The probe's output is a parameter; finding the files and running the probe
    are not modelled. */
module LegacyInferDependencys {
  import opened Wrappers
  import opened Text
  import Lists

  /** The post-processing of `__execute_v2`: the stripped output, or
      NoEnviromentFoundExcpetion when nothing but white space is left. */
  function ExecuteV2(out: string): (r: Result<string>)
    ensures r.Err? <==> Strip(out) == ""
    ensures r.Err? ==> r.error == NoEnviromentFoundExcpetion
    ensures r.Ok? ==> r.value != "" && IsStripped(r.value) && |r.value| <= |out|
  {
    var stripped := Strip(out);
    if stripped == "" then Err(NoEnviromentFoundExcpetion) else Ok(stripped)
  }

  /** Running the post-processing on its own result changes nothing. */
  lemma ExecuteV2Idempotent(out: string)
    requires ExecuteV2(out).Ok?
    ensures ExecuteV2(ExecuteV2(out).value) == ExecuteV2(out)
  {
  }

  /** Every line of every input but its last, in input order. */
  function BodyLines(dockerfiles: seq<string>): (r: seq<seq<string>>)
    requires forall i :: 0 <= i < |dockerfiles| ==> dockerfiles[i] != ""
    ensures |r| == |dockerfiles|
    ensures forall i :: 0 <= i < |dockerfiles| ==> r[i] == SplitLines(dockerfiles[i])[..|SplitLines(dockerfiles[i])| - 1]
  {
    seq(|dockerfiles|, i requires 0 <= i < |dockerfiles| =>
      var lines := SplitLines(dockerfiles[i]); lines[..|lines| - 1])
  }

  /** `__mergeDockerfiles`: the last line of each input dropped, the rest
      concatenated in input order, each line kept at its first occurrence,
      joined with "\n"; an input without lines makes `pop` raise IndexError. */
  function MergedDockerfiles(dockerfiles: seq<string>): (r: Result<string>)
    ensures r.Err? <==> exists i :: 0 <= i < |dockerfiles| && dockerfiles[i] == ""
    ensures r.Err? ==> r.error == IndexError
  {
    if exists i :: 0 <= i < |dockerfiles| && dockerfiles[i] == "" then Err(IndexError)
    else Ok(JoinLines(MergedLines(dockerfiles)))
  }

  /** The lines the merge joins. */
  function MergedLines(dockerfiles: seq<string>): seq<string>
    requires forall i :: 0 <= i < |dockerfiles| ==> dockerfiles[i] != ""
  {
    Lists.RemoveDuplicates(Lists.Flatten(BodyLines(dockerfiles)))
  }

  /** The merged lines are pairwise distinct, each is a line of some input
      other than its last, and every such line is among them. */
  lemma MergedLinesProvenance(dockerfiles: seq<string>, line: string)
    requires forall i :: 0 <= i < |dockerfiles| ==> dockerfiles[i] != ""
    ensures Lists.Distinct(MergedLines(dockerfiles))
    ensures line in MergedLines(dockerfiles) <==>
      exists i, k :: 0 <= i < |dockerfiles| && 0 <= k < |SplitLines(dockerfiles[i])| - 1 && SplitLines(dockerfiles[i])[k] == line
  {
    var body := BodyLines(dockerfiles);
    var flat := Lists.Flatten(body);
    Lists.FlattenMembership(body, line);
    assert line in MergedLines(dockerfiles) <==> line in flat;
    if line in flat {
      var i :| 0 <= i < |body| && line in body[i];
      var k :| 0 <= k < |body[i]| && body[i][k] == line;
      assert SplitLines(dockerfiles[i])[k] == line;
    }
    if exists i, k :: 0 <= i < |dockerfiles| && 0 <= k < |SplitLines(dockerfiles[i])| - 1 && SplitLines(dockerfiles[i])[k] == line {
      var i, k :| 0 <= i < |dockerfiles| && 0 <= k < |SplitLines(dockerfiles[i])| - 1 && SplitLines(dockerfiles[i])[k] == line;
      assert body[i][k] == line;
    }
  }

  /** Outputs that went through `__execute_v2` never make the merge raise. */
  lemma ExecutedOutputsMerge(outs: seq<string>, dockerfiles: seq<string>)
    requires |outs| == |dockerfiles|
    requires forall i :: 0 <= i < |outs| ==> ExecuteV2(outs[i]) == Ok(dockerfiles[i])
    ensures MergedDockerfiles(dockerfiles).Ok?
  {
  }

  /** A single input loses its last line: "a\nb" merges to "a". */
  lemma MergeDropsLastLine(a: string, b: string)
    requires a != "" && b != "" && NoLineBreak(a) && NoLineBreak(b)
    ensures MergedDockerfiles([a + "\n" + b]) == Ok(a)
  {
    var s := a + "\n" + b;
    assert s != "";
    assert MergedLines([s]) == [a] by {
      SplitTwoLines(a, b);
      assert BodyLines([s]) == [[a]] by {
        assert BodyLines([s])[0] == [a, b][..1] == [a];
      }
      assert Lists.Flatten([[a]]) == [a];
      assert Lists.RemoveDuplicates([a]) == [a];
    }
  }

  lemma SplitTwoLines(a: string, b: string)
    requires b != "" && NoLineBreak(a) && NoLineBreak(b)
    ensures SplitLines(a + "\n" + b) == [a, b]
  {
    var s := a + "\n" + b;
    assert s[..|a|] == a;
    LineEndPrefix(s, |a|);
    assert s[|a| + 1..] == b;
    SplitOneLine(b);
  }

  /** LineEnd of s is at the first line break, when s starts with k
      characters that are not breaks and s[k] is one. */
  lemma {:induction false} LineEndPrefix(s: string, k: nat)
    requires k < |s| && NoLineBreak(s[..k]) && IsLineBreak(s[k])
    ensures LineEnd(s) == k
    decreases k
  {
    if k > 0 {
      assert s[0] == s[..k][0];
      assert s[1..][..k - 1] == s[..k][1..];
      LineEndPrefix(s[1..], k - 1);
    }
  }

  class InferDockerfile {
    const projectPath: string

    constructor (path: string)
      ensures projectPath == path
    {
      projectPath := path;
    }

    /** `InferDockerfile(projectPath)`: FileNotFoundError for a missing path,
        NotADirectoryError for one that is not a directory. */
    static method Open(path: string, present: bool, isDir: bool) returns (r: Result<InferDockerfile>)
      ensures !present ==> r == Err(FileNotFoundError)
      ensures present && !isDir ==> r == Err(NotADirectoryError)
      ensures present && isDir ==> r.Ok? && fresh(r.value) && r.value.projectPath == path
    {
      if !present {
        return Err(FileNotFoundError);
      } else if !isDir {
        return Err(NotADirectoryError);
      }
      var d := new InferDockerfile(path);
      return Ok(d);
    }

    /** `inferDockerfile`: the loop runs over the list it is meant to fill,
        which is empty, so no file is probed and the merge of nothing is "". */
    method InferDockerfile(files: seq<string>) returns (r: Result<string>)
      ensures r == Ok("")
    {
      var dockerfiles: seq<string> := [];
      r := MergeDockerfiles(dockerfiles);
    }

    /** `__mergeDockerfiles`: split every input into lines, pop the last line of
        each list in place, then flatten, drop repeated lines and join. */
    static method MergeDockerfiles(dockerfiles: seq<string>) returns (r: Result<string>)
      ensures r == MergedDockerfiles(dockerfiles)
    {
      var lines := seq(|dockerfiles|, i requires 0 <= i < |dockerfiles| => SplitLines(dockerfiles[i]));
      for i := 0 to |lines|
        invariant |lines| == |dockerfiles|
        invariant forall j :: 0 <= j < i ==> dockerfiles[j] != ""
        invariant forall j :: 0 <= j < i ==> lines[j] == SplitLines(dockerfiles[j])[..|SplitLines(dockerfiles[j])| - 1]
        invariant forall j :: i <= j < |lines| ==> lines[j] == SplitLines(dockerfiles[j])
      {
        if lines[i] == [] {
          return Err(IndexError);
        }
        lines := lines[i := lines[i][..|lines[i]| - 1]];
      }
      assert lines == BodyLines(dockerfiles);
      return Ok(JoinLines(Lists.RemoveDuplicates(Lists.Flatten(lines))));
    }
  }
}
