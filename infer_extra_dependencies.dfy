/** The base class of the three config-file parsers
    (pyexec/dependencyInference/inferExtraDependencies.py) and the loop shape
    they share: every line must parse, and the entries are put one by one into
    an initially empty dict with the keep-first rule. */
module InferExtraDependencies {
  import opened Wrappers
  import opened DepTable

  class InferExtraDependencies {
    /** The whole text of the file, read once by the constructor. */
    const fileContent: string

    constructor (content: string)
      ensures fileContent == content
    {
      fileContent := content;
    }

    /** The constructor's check: the path must name an existing regular file.
        Whether it exists (present), whether it is a file and its text are inputs. */
    static method Open(present: bool, isFile: bool, content: string) returns (r: Result<InferExtraDependencies>)
      ensures r.Err? <==> !present || !isFile
      ensures r.Err? ==> r.error == ValueError
      ensures r.Ok? ==> fresh(r.value) && r.value.fileContent == content
    {
      if !present || !isFile {
        return Err(ValueError);
      }
      var p := new InferExtraDependencies(content);
      return Ok(p);
    }

    /** `_add_dependencies`: writes the name only when it is absent or holds
        None, so a stored version is never replaced and no other name changes. */
    method AddDependencies(deps: Table, name: string, version: Option<string>) returns (r: Table)
      ensures name !in Keys(deps) ==> r == deps + [(name, version)]
      ensures Get(deps, name) == Some(None) ==> Names(r) == Names(deps) && Get(r, name) == Some(version)
      ensures HasVersion(Get(deps, name)) ==> r == deps
      ensures forall k :: k != name ==> Get(r, k) == Get(deps, k)
      ensures NoDupKeys(deps) ==> NoDupKeys(r)
      ensures r == Put(deps, name, version)
    {
      PutByAssign(deps, name, version);
      var current := Get(deps, name);
      if current.None? || current.value.None? {
        r := Assign(deps, name, version);
      } else {
        r := deps;
      }
    }
  }

  /** The entries the lines parse to, in order, or None when a line does not parse. */
  function ParseEach(lines: seq<string>, parse: string -> Option<Entry>): (r: Option<Table>)
    ensures r.Some? <==> forall i :: 0 <= i < |lines| ==> parse(lines[i]).Some?
    ensures r.Some? ==> |r.value| == |lines|
    ensures r.Some? ==> forall i :: 0 <= i < |lines| ==> r.value[i] == parse(lines[i]).value
  {
    if lines == [] then Some([])
    else
      var n := |lines| - 1;
      assert forall i :: 0 <= i < n ==> lines[..n][i] == lines[i];
      match ParseEach(lines[..n], parse)
      case None => None
      case Some(es) =>
        match parse(lines[n])
        case None => None
        case Some(e) => Some(es + [e])
  }

  lemma ParseEachSnoc(lines: seq<string>, i: nat, parse: string -> Option<Entry>)
    requires i < |lines|
    ensures ParseEach(lines[..i + 1], parse) ==
      match ParseEach(lines[..i], parse)
      case None => None
      case Some(es) => (match parse(lines[i]) case None => None case Some(e) => Some(es + [e]))
  {
    assert lines[..i + 1][..i] == lines[..i];
  }

  /** What each parser's loop returns: the keep-first dict of all entries, or the
      empty dict as soon as one line does not parse. */
  function Collect(lines: seq<string>, parse: string -> Option<Entry>): (r: Table)
    ensures NoDupKeys(r)
    ensures (exists i :: 0 <= i < |lines| && parse(lines[i]).None?) ==> r == []
    ensures (forall i :: 0 <= i < |lines| ==> parse(lines[i]).Some?) ==>
              forall k :: k in Keys(r) <==> exists i :: 0 <= i < |lines| && parse(lines[i]).value.0 == k
  {
    match ParseEach(lines, parse)
    case None => []
    case Some(es) =>
      var r := MergeTables([], es);
      assert forall k :: k in Keys(es) <==> exists i :: 0 <= i < |lines| && parse(lines[i]).value.0 == k by {
        forall k ensures k in Keys(es) <==> exists i :: 0 <= i < |lines| && parse(lines[i]).value.0 == k {
          if k in Keys(es) {
            var i :| 0 <= i < |es| && es[i].0 == k;
            assert parse(lines[i]).value.0 == k;
          }
        }
      }
      r
  }

  /** When every line parses, a name repeated over several lines keeps the first
      non-null version given to it. */
  lemma CollectGet(lines: seq<string>, parse: string -> Option<Entry>, name: string)
    requires forall i :: 0 <= i < |lines| ==> parse(lines[i]).Some?
    ensures Get(Collect(lines, parse), name) == FirstEntryVersion(ParseEach(lines, parse).value, name)
  {
    PutAllGet(ParseEach(lines, parse).value, name);
  }
}
