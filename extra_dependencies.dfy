/** `ExtraDependencies` (pyexec/dependencyInference/extraDependencies.py): the
    fallback used when no environment could be inferred by probing. A Pipfile
    is read first; only when it is missing or yields nothing is a
    requirements.txt read and merged into the (empty) result. setup.py is not
    consulted.

    The project directory is given by what it holds: for each of the two file
    names, None when no regular file of that name exists, and its text otherwise. */
module ExtraDependencies {
  import opened Wrappers
  import opened DepTable
  import InferFromPipfile
  import InferFromRequirementstxt

  /** What `get_extra_dependencies` returns: a KeyError from the Pipfile parser
      propagates, a non-empty Pipfile result is returned as it is, and otherwise
      the requirements.txt result is merged into the Pipfile's empty one. */
  function ExtraDependenciesOf(pipfile: Option<string>, requirements: Option<string>): (r: Result<Table>)
    ensures r.Err? <==> pipfile.Some? && InferFromPipfile.PipfileDependencies(pipfile.value, false).Err?
    ensures r.Err? ==> r.error == KeyError
    ensures r.Ok? ==> NoDupKeys(r.value)
  {
    var first := if pipfile.Some? then InferFromPipfile.PipfileDependencies(pipfile.value, false) else Ok([]);
    if first.Err? then Err(first.error)
    else if |first.value| > 0 then first
    else if requirements.Some? then
      Ok(MergeTables(first.value, InferFromRequirementstxt.RequirementsDependencies(requirements.value, false)))
    else first
  }

  /** The fallback order: a Pipfile that yields entries decides alone; else the
      result is exactly the requirements.txt dict; with neither, it is empty. */
  lemma FallbackOrder(pipfile: Option<string>, requirements: Option<string>)
    requires pipfile.None? || InferFromPipfile.PipfileDependencies(pipfile.value, false).Ok?
    ensures var fromPipfile := if pipfile.Some? then InferFromPipfile.PipfileDependencies(pipfile.value, false).value else [];
      ExtraDependenciesOf(pipfile, requirements) ==
        if fromPipfile != [] then Ok(fromPipfile)
        else if requirements.Some? then Ok(InferFromRequirementstxt.RequirementsDependencies(requirements.value, false))
        else Ok([])
  {
    if requirements.Some? {
      MergeIntoEmpty(InferFromRequirementstxt.RequirementsDependencies(requirements.value, false));
    }
  }

  class ExtraDependencies {
    const pipfile: Option<string>
    const requirements: Option<string>

    constructor (pipfile: Option<string>, requirements: Option<string>)
      ensures this.pipfile == pipfile && this.requirements == requirements
    {
      this.pipfile := pipfile;
      this.requirements := requirements;
    }

    /** `ExtraDependencies(project_path)`: the path must be an existing directory. */
    static method Open(present: bool, isDir: bool, pipfile: Option<string>, requirements: Option<string>)
      returns (r: Result<ExtraDependencies>)
      ensures r.Err? <==> !present || !isDir
      ensures r.Err? ==> r.error == ValueError
      ensures r.Ok? ==> fresh(r.value) && r.value.pipfile == pipfile && r.value.requirements == requirements
    {
      if !present || !isDir {
        return Err(ValueError);
      }
      var e := new ExtraDependencies(pipfile, requirements);
      return Ok(e);
    }

    /** `get_extra_dependencies` */
    method GetExtraDependencies() returns (r: Result<Table>)
      ensures r == ExtraDependenciesOf(pipfile, requirements)
    {
      var result: Table := [];
      if pipfile.Some? {
        var inferer := new InferFromPipfile.InferFromPipfile(pipfile.value);
        var parsed := inferer.InferDependencies();
        if parsed.Err? {
          return Err(parsed.error);
        }
        result := parsed.value;
        if |result| > 0 {
          return Ok(result);
        }
      }
      if requirements.Some? {
        var inferer := new InferFromRequirementstxt.InferFromRequirementstxt(requirements.value);
        var parsed := inferer.InferDependencies();
        result := MergeInto(result, parsed);
      }
      return Ok(result);
    }
  }
}
