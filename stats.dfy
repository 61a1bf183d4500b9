/** `Stats` (pyexec/evaluateOutput/stats.py): counters over the list of
    `PackageInfo` records a mining run saved. Reading the saved file is not
    modelled: what it held is a parameter. */
module Stats {
  import opened Wrappers
  import opened PackageInfo

  /** One element of the unpickled list. */
  datatype Item = Package(info: PackageInfo) | OtherObject

  /** What `pickle.load` gave: a list, or some other object. */
  datatype Loaded = NotAList | Items(items: seq<Item>)

  /** The type check of the constructor: anything but a list raises ValueError;
      the empty list makes `reduce` without an initial value raise TypeError;
      a list holding anything but `PackageInfo` records raises ValueError. */
  function Validate(loaded: Loaded): (r: Result<seq<PackageInfo>>)
    ensures r.Err? ==> r.error == ValueError || r.error == TypeError
    ensures r.Err? && r.error == TypeError <==> loaded == Items([])
    ensures r.Ok? <==> loaded.Items? && loaded.items != [] && forall k :: 0 <= k < |loaded.items| ==> loaded.items[k].Package?
    ensures r.Ok? ==> |r.value| == |loaded.items| && forall k :: 0 <= k < |r.value| ==> loaded.items[k] == Package(r.value[k])
  {
    match loaded
    case NotAList => Err(ValueError)
    case Items(items) =>
      if items == [] then Err(TypeError)
      else if exists k :: 0 <= k < |items| && items[k].OtherObject? then Err(ValueError)
      else Ok(seq(|items|, k requires 0 <= k < |items| => items[k].info))
  }

  /** `__accumulate(lmbda)`: how many records satisfy the predicate. */
  function Count(data: seq<PackageInfo>, p: PackageInfo -> bool): (n: nat)
    ensures n <= |data|
  {
    if data == [] then 0
    else Count(data[..|data| - 1], p) + (if p(data[|data| - 1]) then 1 else 0)
  }

  /** The positions below n whose record satisfies the predicate. */
  ghost function Hits(data: seq<PackageInfo>, p: PackageInfo -> bool, n: nat): set<nat>
    requires n <= |data|
  {
    set k: nat | k < n && p(data[k])
  }

  /** One more position adds itself exactly when its record satisfies the predicate. */
  lemma HitsStep(data: seq<PackageInfo>, p: PackageInfo -> bool, n: nat)
    requires n < |data|
    ensures |Hits(data, p, n + 1)| == |Hits(data, p, n)| + if p(data[n]) then 1 else 0
  {
    if p(data[n]) {
      assert Hits(data, p, n + 1) == Hits(data, p, n) + {n};
    } else {
      assert Hits(data, p, n + 1) == Hits(data, p, n);
    }
  }

  /** The count of the first n records is the number of their positions that
      satisfy the predicate. */
  lemma {:induction false} CountPrefix(data: seq<PackageInfo>, p: PackageInfo -> bool, n: nat)
    requires n <= |data|
    ensures Count(data[..n], p) == |Hits(data, p, n)|
  {
    if n == 0 {
      assert Hits(data, p, 0) == {};
    } else {
      CountPrefix(data, p, n - 1);
      HitsStep(data, p, n - 1);
      assert data[..n][..n - 1] == data[..n - 1];
    }
  }

  /** The count is the number of positions whose record satisfies the
      predicate: the length of the filtered list. */
  lemma CountIsCardinality(data: seq<PackageInfo>, p: PackageInfo -> bool)
    ensures Count(data, p) == |set k: nat | k < |data| && p(data[k])|
  {
    CountPrefix(data, p, |data|);
    assert data[..|data|] == data;
  }

  /** A predicate that holds whenever another does counts at least as many. */
  lemma {:induction false} CountMonotone(data: seq<PackageInfo>, p: PackageInfo -> bool, q: PackageInfo -> bool)
    requires forall x :: p(x) ==> q(x)
    ensures Count(data, p) <= Count(data, q)
  {
    if data != [] {
      CountMonotone(data[..|data| - 1], p, q);
    }
  }

  /** Counting distributes over concatenation. */
  lemma {:induction false} CountAppend(a: seq<PackageInfo>, b: seq<PackageInfo>, p: PackageInfo -> bool)
    ensures Count(a + b, p) == Count(a, p) + Count(b, p)
    decreases |b|
  {
    if b != [] {
      assert (a + b)[..|a + b| - 1] == a + b[..|b| - 1];
      CountAppend(a, b[..|b| - 1], p);
    } else {
      assert a + b == a;
    }
  }

  /** The count reaches the length exactly when every record satisfies the predicate. */
  lemma {:induction false} CountAll(data: seq<PackageInfo>, p: PackageInfo -> bool)
    ensures Count(data, p) == |data| <==> forall k :: 0 <= k < |data| ==> p(data[k])
  {
    if data != [] {
      var n := |data| - 1;
      CountAll(data[..n], p);
      assert forall k :: 0 <= k < n ==> data[..n][k] == data[k];
    }
  }

  /** `__repo_info()`: the repository records present, in input order. */
  function RepoInfos(data: seq<PackageInfo>): (r: seq<RepoInfo>)
    ensures |r| == Count(data, (p: PackageInfo) => p.repoInfo.Some?)
  {
    if data == [] then []
    else
      var last := data[|data| - 1];
      RepoInfos(data[..|data| - 1]) + if last.repoInfo.Some? then [last.repoInfo.value] else []
  }

  /** The records of a + b are those of a followed by those of b. */
  lemma {:induction false} RepoInfosAppend(a: seq<PackageInfo>, b: seq<PackageInfo>)
    ensures RepoInfos(a + b) == RepoInfos(a) + RepoInfos(b)
    decreases |b|
  {
    if b != [] {
      assert (a + b)[..|a + b| - 1] == a + b[..|b| - 1];
      RepoInfosAppend(a, b[..|b| - 1]);
    } else {
      assert a + b == a;
    }
  }

  /** Every record listed belongs to some package of the input. */
  lemma {:induction false} RepoInfosFrom(data: seq<PackageInfo>, r: RepoInfo)
    ensures r in RepoInfos(data) <==> exists k :: 0 <= k < |data| && data[k].repoInfo == Some(r)
  {
    if data != [] {
      var n := |data| - 1;
      RepoInfosFrom(data[..n], r);
      assert forall k :: 0 <= k < n ==> data[..n][k] == data[k];
    }
  }

  class Stats {
    const minedData: seq<PackageInfo>

    constructor (data: seq<PackageInfo>)
      ensures minedData == data
    {
      minedData := data;
    }

    /** `Stats(pickled_data)`: ValueError unless the path is a file; then the
        type check of what it held. */
    static method Open(present: bool, isFile: bool, loaded: Loaded) returns (r: Result<Stats>)
      ensures !(present && isFile) ==> r == Err(ValueError)
      ensures present && isFile ==> (r.Err? <==> Validate(loaded).Err?)
      ensures present && isFile && r.Err? ==> r.error == Validate(loaded).error
      ensures r.Ok? ==> fresh(r.value) && r.value.minedData == Validate(loaded).value
    {
      if !(present && isFile) {
        return Err(ValueError);
      }
      var checked := Validate(loaded);
      if checked.Err? {
        return Err(checked.error);
      }
      var s := new Stats(checked.value);
      return Ok(s);
    }

    /** `projects_attempted`: the count of a predicate every record satisfies. */
    function ProjectsAttempted(): (n: nat)
      ensures n == Count(minedData, (p: PackageInfo) => true)
    {
      CountAll(minedData, (p: PackageInfo) => true);
      |minedData|
    }

    /** `project_on_pypi` */
    function ProjectOnPypi(): (n: nat)
      ensures n <= ProjectsAttempted()
    {
      Count(minedData, (p: PackageInfo) => p.projectOnPypi)
    }

    /** `github_link_found` */
    function GithubLinkFound(): (n: nat)
      ensures n <= ProjectsAttempted()
    {
      Count(minedData, (p: PackageInfo) => p.GithubLinkFound())
    }

    /** `github_repos_found` */
    function GithubReposFound(): (n: nat)
      ensures n <= ProjectsAttempted()
    {
      Count(minedData, (p: PackageInfo) => p.githubRepoExists)
    }

    /** `dockerfiles_inferred` */
    function DockerfilesInferred(): (n: nat)
      ensures n <= ProjectsAttempted()
    {
      Count(minedData, (p: PackageInfo) => p.dockerfile.Some?)
    }

    /** `dockerimages_built` */
    function DockerimagesBuilt(): (n: nat)
      ensures n <= ProjectsAttempted()
    {
      Count(minedData, (p: PackageInfo) => p.dockerimageBuild)
    }

    /** `testsuit_found` */
    function TestsuitFound(): (n: nat)
      ensures n <= ProjectsAttempted()
    {
      Count(minedData, (p: PackageInfo) => p.HasTestsuit())
    }

    /** `testsuit_executed` */
    function TestsuitExecuted(): (n: nat)
      ensures n <= ProjectsAttempted()
    {
      Count(minedData, (p: PackageInfo) => p.TestsuitExecuted())
    }

    /** `testsuit_parsed` */
    function TestsuitParsed(): (n: nat)
      ensures n <= ProjectsAttempted()
    {
      Count(minedData, (p: PackageInfo) => p.TestsuitResultParsed())
    }

    /** An executed test suite is a found one whose image was built. */
    lemma ExecutedBounds()
      ensures TestsuitExecuted() <= TestsuitFound()
      ensures TestsuitExecuted() <= DockerimagesBuilt()
    {
      CountMonotone(minedData, (p: PackageInfo) => p.TestsuitExecuted(), (p: PackageInfo) => p.HasTestsuit());
      CountMonotone(minedData, (p: PackageInfo) => p.TestsuitExecuted(), (p: PackageInfo) => p.dockerimageBuild);
    }

    /** `locs`: one entry per package with repository data, in input order. */
    function Locs(): (r: seq<int>)
      ensures |r| == Count(minedData, (p: PackageInfo) => p.repoInfo.Some?)
      ensures forall k :: 0 <= k < |r| ==> r[k] == RepoInfos(minedData)[k].loc
    {
      var infos := RepoInfos(minedData);
      seq(|infos|, k requires 0 <= k < |infos| => infos[k].loc)
    }

    /** `comlexities`: one entry per package with repository data, in input order. */
    function Comlexities(): (r: seq<int>)
      ensures |r| == Count(minedData, (p: PackageInfo) => p.repoInfo.Some?)
      ensures forall k :: 0 <= k < |r| ==> r[k] == RepoInfos(minedData)[k].averageComplexity
    {
      var infos := RepoInfos(minedData);
      seq(|infos|, k requires 0 <= k < |infos| => infos[k].averageComplexity)
    }
  }
}
