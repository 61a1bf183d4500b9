/** The record `PackageInfo` (pyexec/mining/packageInfo.py, and the same
    dataclass in pyexec/mining/miner.py) that the miner fills in for each
    package, with its derived flags. The records of the test runner and of the
    GitHub API are kept opaque; `RepoInfo` carries the fields of
    pyexec/mining/gitrequest.py. */
module PackageInfo {
  import opened Wrappers
  import Dependencies

  type TestResult(==)
  type CoverageResult(==)
  type GitHubInfo(==)

  /** What cloning the repository measured. */
  datatype RepoInfo = RepoInfo(
    hasRequirementstxt: bool,
    hasSetuppy: bool,
    hasMakefile: bool,
    loc: int,
    averageComplexity: int)

  datatype PackageInfo = PackageInfo(
    name: string,
    projectOnPypi: bool,
    githubRepo: Option<(string, string)>,
    githubRepoExists: bool,
    dockerfile: Option<Dependencies.Spec>,
    dockerfileSource: Option<string>,
    dockerimageBuild: bool,
    testcaseCount: Option<int>,
    testResult: Option<(TestResult, CoverageResult)>,
    githubInfo: Option<GitHubInfo>,
    repoInfo: Option<RepoInfo>)
  {
    /** `has_testsuit`: the test is `is not None`, so a stored count of 0
        still means a test suite was found. */
    predicate HasTestsuit()
      ensures HasTestsuit() <==> testcaseCount.Some?
      ensures testcaseCount == Some(0) ==> HasTestsuit()
    {
      testcaseCount.Some?
    }

    /** `testsuit_executed`: a suite was found and its image was built. */
    predicate TestsuitExecuted()
      ensures TestsuitExecuted() ==> HasTestsuit()
      ensures TestsuitExecuted() <==> testcaseCount.Some? && dockerimageBuild
    {
      HasTestsuit() && dockerimageBuild
    }

    /** `testsuit_result_parsed`: set by the stored test result alone,
        whether or not the suite was executed. */
    predicate TestsuitResultParsed()
      ensures TestsuitResultParsed() <==> testResult.Some?
      ensures testResult.Some? && !TestsuitExecuted() ==> TestsuitResultParsed()
    {
      testResult.Some?
    }

    /** `github_link_found`: a repository link was stored, whether or not the
        repository exists. */
    predicate GithubLinkFound()
      ensures GithubLinkFound() <==> githubRepo.Some?
      ensures githubRepo.Some? && !githubRepoExists ==> GithubLinkFound()
    {
      githubRepo.Some?
    }
  }

  /** `PackageInfo(name)`: every flag, stored or derived, is false and every
      optional field is None. */
  function Fresh(name: string): (p: PackageInfo)
    ensures p.name == name
    ensures !p.projectOnPypi && !p.githubRepoExists && !p.dockerimageBuild
    ensures !p.HasTestsuit() && !p.TestsuitExecuted() && !p.TestsuitResultParsed() && !p.GithubLinkFound()
    ensures p.dockerfile.None? && p.dockerfileSource.None? && p.githubInfo.None? && p.repoInfo.None?
  {
    PackageInfo(name, false, None, false, None, None, false, None, None, None, None)
  }

}
