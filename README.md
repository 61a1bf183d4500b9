# Pyexec dependency inference, modelled in Dafny

This project models the dependency-inference layer of Pyexec. That layer turns
a checkout of a Python project into a build specification, a pseudo-Dockerfile
made of a `FROM python:<version>` line, `apt-get` and `pip` install lines, and
optional COPY, WORKDIR and CMD lines. The model covers:

- `Dependencies` (pyexec/util/dependencies.py). Files: `dep_table.dfy`,
  `dockerfile_grammar.dfy`, `dependencies.dfy`.
  - The Python version, the apt and pip dicts and the three directives are one
    `Spec` value. They are also fields of the class `Dependencies`, whose
    methods update them in place as the Python code does.
  - The dicts are `DepTable.Table`: a sequence of (name, optional version)
    pairs with distinct names, in insertion order.
  - The FROM/RUN regular expressions are hand-written recognisers in
    `DockerfileGrammar`.
  - The specification functions are `ParseDockerfile`, `Serialize` and
    `MergeSpecs`. `FromDockerfile`, `ToDockerfile` and `MergeDependencies` are
    methods proved to compute them.
- The list helpers of pyexec/util/list.py, plus the `all_equal` that
  dependencies.py imports but list.py does not define. It is modelled as
  "every element equals every other one". File: `lists.dfy`.
- The static config-file parsers: the shared base class, the Pipfile,
  requirements.txt and setup.py parsers, and the Pipfile-then-requirements.txt
  fallback. Files: `infer_extra_dependencies.dfy`, `infer_from_pipfile.dfy`,
  `infer_from_requirementstxt.dfy`, `infer_from_setuppy.dfy`,
  `extra_dependencies.dfy`.
- The probe driver `InferDockerfile` (pyexec/dependencyInference/inferDependencys.py).
  File: `infer_dependencys.dfy`. The file list, the probe and the clock are
  parameters:
  - `probe(file, limit)` gives OSError or the probe's standard output;
  - `elapsed(i, false)` and `elapsed(i, true)` are the seconds elapsed before
    and after file i, as reals, and `int()` on them truncates toward zero.
- The legacy driver of pyexec/dependencyInferrance/inferDependencys.py.
  File: `legacy_infer_dependencys.dfy`. As written, that file imports
  `pydefects.util.list` and `pydefects.util.shell` (lines 4-5), so it only
  loads where the `pydefects` package is installed; the model describes its
  behaviour once loaded.
- From pyexec/mining/miner.py: the GitHub link extraction, `_run_v2`,
  `_get_extra_dependencies` and the source selection of `__checkout`.
  File: `miner.dfy`.
- The `PackageInfo` record with its derived flags (`package_info.dfy`), and the
  `Stats` counters (`stats.dfy`).

Text follows Python on ASCII only:
- `\w` is `[A-Za-z0-9_]`.
- `str.strip` removes the ASCII characters for which `str.isspace` holds.
- `str.splitlines` breaks at the ASCII line boundaries.
- A regular expression's `$` matches at the end or before one final "\n".

Exceptions are values of `Wrappers.Exception`, returned in a `Result`.

Where the code departs from what its names and comments suggest, the model
follows the code:
- `from_dockerfile` cannot read what `to_dockerfile` writes. See the findings below.
- The fallback reads the Pipfile and then requirements.txt. setup.py is never
  consulted, and no provenance is reported.
- The setup.py parser scans with `_setup_call_regex`, not a dependency pattern.
  There is no "requirements.txt" sentinel.
- Its bracket matcher counts only the first character's kind of bracket.
- A probe output that is not a `FROM python:` text aborts the run with
  NoEnvironmentFoundException. It is not skipped.
- Only the `packages` section of a Pipfile is read, not `dev-packages`.

## Model

| member | source | states |
|---|---|---|
| DepTable.IndexOf | pyexec/util/dependencies.py:190 | The first position holding the name, and -1 exactly when the name is not a key (`name not in d`). |
| DepTable.Put | pyexec/util/dependencies.py:189-195 | Keep-first insert. The keys gain the name. The name gets the earlier version if it was non-null, else the new one. Every other name keeps its value. A new name is appended at the end and an existing one stays in place. The dict invariant is kept. |
| DepTable.PutByAssign | pyexec/dependencyInference/inferExtraDependencies.py:22-26 | The keep-first insert is the source's conditional assignment: unchanged when the name holds a non-null version, `d[name] = version` otherwise. |
| DepTable.Assign | pyexec/dependencyInference/inferExtraDependencies.py:26 | `d[name] = version`. The name maps to the version, other names are unchanged, and the order is kept for an existing name or extended for a new one. |
| DepTable.KeysCardinality | pyexec/util/dependencies.py:197-201 | `len(d)`: a dict has as many entries as names. |
| DepTable.MergeTables | pyexec/util/dependencies.py:206-212 | `__merge_dict`: the names of the result are the union of both dicts' names, and the dict invariant is kept. |
| DepTable.MergeTablesGet | pyexec/util/dependencies.py:206-212 | After the merge, each name holds the base's version if that is non-null, and the addition's otherwise. |
| DepTable.MergeTablesDisjoint | pyexec/dependencyInference/extraDependencies.py:38-44 | Merging names the base lacks appends them in the addition's order. |
| DepTable.MergeIntoEmpty | pyexec/dependencyInference/extraDependencies.py:32-36 | Merging a dict into an empty one copies it, order included. |
| DepTable.MergeInto | pyexec/util/dependencies.py:206-212 | The loop of `__merge_dict` computes the merge. |
| DepTable.Remove | pyexec/util/dependencies.py:90 | `pop(name, None)` removes exactly that name, and changes nothing when the name is absent. |
| DepTable.RemoveSplice | pyexec/util/dependencies.py:90 | On a dict, pop takes out the one entry for the name and keeps every other entry, in order. |
| DepTable.RemoveGet | pyexec/util/dependencies.py:90 | pop leaves every other name's version as it was. |
| DepTable.RemoveSize | pyexec/util/dependencies.py:90 | pop keeps the dict invariant and shortens the dict by one exactly when the name was present. |
| DepTable.MergeAll | pyexec/util/dependencies.py:153-156 | Dicts merged one after the other into an empty one: a name is in the result exactly when it is in one of them. |
| DepTable.MergeAllSingle | pyexec/util/dependencies.py:153-156 | Merging a single dict into an empty one reproduces it. |
| DepTable.FirstVersionIs | pyexec/util/dependencies.py:153-156 | The first input holding a non-null version for a name decides that name's version. |
| DepTable.FirstVersionSnoc | pyexec/util/dependencies.py:153-156 | The front-to-back "first non-null version" equals the keep-first rule applied input by input. |
| DepTable.MergeAllGet | pyexec/util/dependencies.py:153-156 | After merging dicts one after the other, every name carries its first non-null version across the inputs. It is null if only null versions occur, and absent if no input has the name. |
| DepTable.PutAllGet | pyexec/dependencyInference/inferFromRequirementstxt.py:32-35 | Entries put one by one with the keep-first rule: a repeated name keeps the first non-null version it was given. |
| Lists.Flatten | pyexec/util/list.py:7-8 | `flatten`: the length of the result is the sum of the sublists' lengths. |
| Lists.FlattenMembership | pyexec/util/list.py:7-8 | An element is in the flattened list exactly when it is in one of the sublists. |
| Lists.FlattenAppend | pyexec/util/list.py:7-8 | Flattening distributes over concatenation, so the sublists keep their order. |
| Lists.RemoveDuplicates | pyexec/util/list.py:11-12 | `remove_duplicates`: no element repeats, every element of the input is kept and nothing else appears. |
| Lists.RemoveDuplicatesKeepsFirstOrder | pyexec/util/list.py:11-12 | The result lists the elements in the order of their first occurrences. |
| Lists.RemoveDuplicatesOfDistinct | pyexec/util/list.py:11-12 | On a list without repetitions, `remove_duplicates` is the identity. |
| Lists.RemoveDuplicatesIdempotent | pyexec/util/list.py:11-12 | Applying `remove_duplicates` twice is the same as applying it once. |
| Lists.AllEqual | pyexec/util/dependencies.py:7 | `all_equal` holds exactly when every two elements are equal. |
| Text.SplitTerminated | pyexec/util/dependencies.py:39 | `splitlines` of text made of single lines, each ending in "\n", gives back exactly those lines. |
| Text.RStripSlash | pyexec/dependencyInference/inferDependencys.py:35 | `rstrip("/")` gives a prefix that does not end in "/", and everything it removed was "/". |
| DockerfileGrammar.FromClauseVersion | pyexec/util/dependencies.py:14 | `^FROM python:([\d.]+)$`: the captured version is non-empty digits and dots, and the clause is exactly the FROM line of that version, with at most a final "\n". |
| DockerfileGrammar.FromLineRoundTrip | pyexec/util/dependencies.py:14 | The FROM line written for a version reads back as that version. |
| DockerfileGrammar.ParsePackageTail | pyexec/util/dependencies.py:16-19 | The name and version groups shared by both install patterns capture a well-formed name and, if any, a well-formed version. |
| DockerfileGrammar.ParsePipInstall | pyexec/util/dependencies.py:18-20 | The pip install pattern only matches lines that start with `RUN ["pip",`. |
| DockerfileGrammar.ParseAptInstall | pyexec/util/dependencies.py:15-17 | The apt-get install pattern only matches lines that start with `RUN ["apt-get",`. |
| DockerfileGrammar.IsAptUpdate | pyexec/util/dependencies.py:21 | The apt-get update pattern only matches `RUN [` lines. |
| DockerfileGrammar.ParseRunCommand | pyexec/util/dependencies.py:68-79 | The RUN classification, tried pip first, then apt-get install, then apt-get update, recognises only `RUN ["` lines. The packages it yields have well-formed names and versions. |
| DockerfileGrammar.ParseRunCommandCorrected | pyexec/util/dependencies.py:68-79 | The corrected classification accepts exactly what the written one accepts, plus the pip self-upgrade line. |
| DockerfileGrammar.PackageTailRoundTrip | pyexec/util/dependencies.py:91-111 | The package text `to_dockerfile` writes (`name`, `name=ver`, `name==ver`) reads back as the same name and version. |
| DockerfileGrammar.PipLineRoundTrip | pyexec/util/dependencies.py:103-111 | Every pip line `to_dockerfile` writes is recognised as the install of the same package and version. |
| DockerfileGrammar.AptLineRoundTrip | pyexec/util/dependencies.py:91-101 | Every apt-get line `to_dockerfile` writes, `-y` included, is recognised as the install of the same package and version. |
| DockerfileGrammar.UpdateLineRecognised | pyexec/util/dependencies.py:83 | The apt-get update line `to_dockerfile` writes is recognised by the update pattern. |
| DockerfileGrammar.UpgradeLineRejected | pyexec/util/dependencies.py:84-88 | The pip self-upgrade line `to_dockerfile` writes matches none of the RUN patterns. |
| Dependencies.Init | pyexec/util/dependencies.py:23-33 | `__init__` succeeds exactly when the FROM pattern matches. It then holds the captured version, empty dicts and no directives. Otherwise it raises InvalidFormatException. |
| Dependencies.ApplyLine | pyexec/util/dependencies.py:45-65 | One pass of the reading loop raises exactly on an invalid line. It never changes the version, keeps the dicts valid, and leaves the directives alone when they are dropped. |
| Dependencies.ApplyLines | pyexec/util/dependencies.py:45-66 | The whole loop keeps the version and the dict invariant, keeps the directives when they are dropped, and only raises InvalidFormatException. |
| Dependencies.ApplyLinesAppend | pyexec/util/dependencies.py:45-66 | Reading xs + ys is reading xs and then, unless that raised, ys. |
| Dependencies.ApplyLinesRejects | pyexec/util/dependencies.py:62-65 | An invalid line anywhere makes the loop raise, whatever came before it. |
| Dependencies.ParseWith | pyexec/util/dependencies.py:36-66 | A successful read has a valid state whose version is the one of the first line's FROM clause. It has no directives when they are dropped. Any failure is InvalidFormatException. |
| Dependencies.ParseDockerfile | pyexec/util/dependencies.py:36-66 | `from_dockerfile` as written: a result is a valid state whose version is that of the first line's FROM clause; every failure is InvalidFormatException. |
| Dependencies.ParseDockerfileCorrected | pyexec/util/dependencies.py:36-66 | `from_dockerfile` with the pip self-upgrade line accepted keeps the same guarantees: a valid state, the FROM version of the first line, InvalidFormatException as the only failure. |
| Dependencies.ParseRejectsMissingFrom | pyexec/util/dependencies.py:39-44 | Empty text raises, and so does text whose first line, unstripped, is not a FROM clause. |
| Dependencies.ParseRejectsInvalidLine | pyexec/util/dependencies.py:45-65 | One invalid line makes the whole read raise: there is no partial result. |
| Dependencies.SkippedLine | pyexec/util/dependencies.py:49-50 | A line starting with "FROM" is skipped without effect. |
| Dependencies.RunLineApplied | pyexec/util/dependencies.py:51-52 | A recognised RUN line has exactly the effect of its `add_*_dependency` call. |
| Dependencies.DirectiveApplied | pyexec/util/dependencies.py:53-61 | A COPY, WORKDIR or CMD line is stored unless directives are dropped, in which case it changes nothing. |
| Dependencies.RenderLines | pyexec/util/dependencies.py:81-121 | `to_dockerfile` writes FROM, then apt-get update, then the pip self-upgrade, and then one line per remaining package and set directive. |
| Dependencies.Serialize | pyexec/util/dependencies.py:81-121 | The text `to_dockerfile` returns is not empty and ends in "\n". For names and versions of the pattern classes, splitting it into lines gives back exactly the lines written, in order. |
| Dependencies.RenderLinesParts | pyexec/util/dependencies.py:81-121 | The output order is the header, then the apt lines, then the pip lines, each in insertion order, then COPY, WORKDIR and CMD. |
| Dependencies.SerializeParts | pyexec/util/dependencies.py:81-121 | The text of `to_dockerfile` is the header text, then the apt lines without "python-pip", then the pip lines, then the set directives, each line ending in "\n". |
| Dependencies.AfterSerialize | pyexec/util/dependencies.py:90 | After `to_dockerfile`, "python-pip" is not an apt name, the state stays valid, and the apt count cannot grow. |
| Dependencies.AptLineFacts | pyexec/util/dependencies.py:91-101 | A written apt line survives strip and splitlines and is recognised as the same apt install. |
| Dependencies.PipLineFacts | pyexec/util/dependencies.py:103-111 | A written pip line survives strip and splitlines and is recognised as the same pip install. |
| Dependencies.AptLinesInstall | pyexec/util/dependencies.py:91-101 | The apt lines written are, one by one, installs of the apt entries. |
| Dependencies.PipLinesInstall | pyexec/util/dependencies.py:103-111 | The pip lines written are, one by one, installs of the pip entries. |
| Dependencies.InstallLinesApplied | pyexec/util/dependencies.py:68-79 | Reading such install lines puts every entry into its dict, in order, with the keep-first rule. |
| Dependencies.DirectivesApplied | pyexec/util/dependencies.py:113-120 | Reading back the written COPY, WORKDIR and CMD lines restores the three directives, unless they are dropped. |
| Dependencies.FromLineFacts | pyexec/util/dependencies.py:82 | The written FROM line survives strip and is skipped by the loop as a FROM line. |
| Dependencies.UpdateLineFacts | pyexec/util/dependencies.py:83 | The written apt-get update line survives strip and is recognised as the update command. |
| Dependencies.UpgradeLineFacts | pyexec/util/dependencies.py:84-88 | The written pip self-upgrade line is an invalid line for the reader as written. It is recognised once the grammar is corrected. |
| Dependencies.FromUpdateApplied | pyexec/util/dependencies.py:82-83 | Reading the FROM and update lines leaves a fresh state unchanged. |
| Dependencies.HeaderApplied | pyexec/util/dependencies.py:82-88 | Reading the three header lines raises as written, and leaves the fresh state unchanged with the corrected grammar. |
| Dependencies.RenderLinesSingle | pyexec/util/dependencies.py:81-121 | For names and versions of the pattern classes, every written line is a single line. |
| Dependencies.AptAfterHeader | pyexec/util/dependencies.py:90-101 | With the corrected grammar, reading the header and the apt lines fills the apt dict, without "python-pip", in the same order. |
| Dependencies.PipAfterApt | pyexec/util/dependencies.py:103-111 | Reading the pip lines next fills the pip dict in the same order. |
| Dependencies.RenderLinesRejected | pyexec/util/dependencies.py:36-66 | As written, the reading loop raises on the lines `to_dockerfile` writes. |
| Dependencies.RenderLinesReread | pyexec/util/dependencies.py:36-66 | With the corrected grammar, the reading loop restores the written state. |
| Dependencies.SerializeNotReparsed | pyexec/util/dependencies.py:81-121 | As written, `from_dockerfile(to_dockerfile(d))` raises InvalidFormatException for every writable d. |
| Dependencies.RoundTripCorrected | pyexec/util/dependencies.py:81-121 | With the self-upgrade line accepted, `from_dockerfile(to_dockerfile(d))` has d's version, the same apt (without "python-pip") and pip dicts in the same order, and d's directives unless they are dropped. |
| Dependencies.MergeSpecs | pyexec/util/dependencies.py:123-161 | `merge_dependencies` only raises InvalidFormatException, and a success comes from a non-empty list and is a valid state. |
| Dependencies.MergeSpecsOk | pyexec/util/dependencies.py:153-161 | Once every check passes, the merge is a fresh state for the first version, with all dicts merged in input order and the first input's directives. |
| Dependencies.MergeSpecsShape | pyexec/util/dependencies.py:125-161 | A successful merge passed each check, and holds the merged dicts and the first input's directives. |
| Dependencies.MergeSpecsContents | pyexec/util/dependencies.py:130-161 | A merge agrees with every input on the version and the directives, and its package names are exactly those of the inputs. |
| Dependencies.MergedKeys | pyexec/util/dependencies.py:154-156 | The names of the merged apt and pip dicts are those of the inputs. |
| Dependencies.MergeSpecsAgree | pyexec/util/dependencies.py:130-151 | Every input agrees with the merge on the version and the directives. |
| Dependencies.MergeSpecsFails | pyexec/util/dependencies.py:125-151 | The merge raises exactly when the list is empty or some input differs from the first in version, COPY, WORKDIR or CMD. A missing line differs from a present one. |
| Dependencies.MergeSpecsSingle | pyexec/util/dependencies.py:123-161 | Merging a single specification reproduces it. |
| Dependencies.MergeSpecsVersions | pyexec/util/dependencies.py:154-156 | Each merged package carries its first non-null version across the inputs, in input order. |
| Dependencies.Dependencies.constructor | pyexec/util/dependencies.py:26-31 | The fields after a matched FROM clause: the version, empty dicts, no directives. |
| Dependencies.Dependencies.New | pyexec/util/dependencies.py:23-33 | The constructor raises exactly when the FROM clause does not match, and otherwise gives a valid new instance holding the fresh state. |
| Dependencies.Dependencies.AddPipDependency | pyexec/util/dependencies.py:189-191 | Changes only the pip dict, by the keep-first insert, and keeps the instance valid. |
| Dependencies.Dependencies.AddAptDependency | pyexec/util/dependencies.py:193-195 | Changes only the apt dict, by the keep-first insert, and keeps the instance valid. |
| Dependencies.Dependencies.ParseRunCommand | pyexec/util/dependencies.py:68-79 | Answers true exactly for a recognised RUN line, applies that line's install, and changes nothing otherwise. |
| Dependencies.Dependencies.AddRunCommand | pyexec/util/dependencies.py:163-165 | Raises InvalidFormatException, with the state unchanged, exactly when the line is no known RUN line. Otherwise it applies the line's install. |
| Dependencies.Dependencies.SetCopyCommand | pyexec/util/dependencies.py:167-173 | Raises, changing nothing, unless the line starts with "COPY". Otherwise it sets COPY when it is unset or `replace` holds, and leaves everything else alone. |
| Dependencies.Dependencies.SetWorkdirCommand | pyexec/util/dependencies.py:175-181 | The same for WORKDIR. |
| Dependencies.Dependencies.SetCmdCommand | pyexec/util/dependencies.py:183-187 | The same for CMD. |
| Dependencies.Dependencies.PipDependencyCount | pyexec/util/dependencies.py:197-198 | The number of distinct pip names. |
| Dependencies.Dependencies.AptDependencyCount | pyexec/util/dependencies.py:200-201 | The number of distinct apt names. |
| Dependencies.Dependencies.ToDockerfile | pyexec/util/dependencies.py:81-121 | Returns the serialized text, and leaves the state with "python-pip" popped from the apt dict. |
| Dependencies.Dependencies.WriteAptLines | pyexec/util/dependencies.py:91-101 | The apt loop appends one terminated install line per entry, in order. |
| Dependencies.Dependencies.WritePipLines | pyexec/util/dependencies.py:103-111 | The pip loop appends one terminated install line per entry, in order. |
| Dependencies.Dependencies.WriteDirective | pyexec/util/dependencies.py:113-120 | A set directive is appended with its "\n", and an unset one adds nothing. |
| Dependencies.Dependencies.FromDockerfile | pyexec/util/dependencies.py:35-66 | Raises exactly when the text is not a valid pseudo-Dockerfile. Otherwise it gives a new instance whose state is the one the reading loop computes. |
| Dependencies.Dependencies.ReadLine | pyexec/util/dependencies.py:45-65 | One pass of the loop: false on an invalid line. Otherwise the new state is that of the line's effect. |
| Dependencies.Dependencies.MergeDependencies | pyexec/util/dependencies.py:123-161 | Raises exactly when the merge specification does. Otherwise it gives a new instance holding the merge of the inputs, which it does not modify. |
| Dependencies.Dependencies.MergeInstalls | pyexec/util/dependencies.py:153-156 | The merge loop fills the new instance's dicts with every input's dicts, merged in input order. |
| Dependencies.Dependencies.MergeEach | pyexec/util/dependencies.py:154-156 | The loop over the inputs' dicts computes their merges in input order. |
| Dependencies.Dependencies.SetDirectives | pyexec/util/dependencies.py:158-160 | Sets the three directives, and only them. |
| InferExtraDependencies.InferExtraDependencies.Open | pyexec/dependencyInference/inferExtraDependencies.py:9-16 | ValueError exactly when the path is not an existing regular file. Otherwise the instance holds the file's text. |
| InferExtraDependencies.InferExtraDependencies.AddDependencies | pyexec/dependencyInference/inferExtraDependencies.py:22-26 | `_add_dependencies`: an absent name is appended, and an existing None is replaced in place, even by None. A non-null version is never changed, and no other name changes. |
| InferExtraDependencies.ParseEach | pyexec/dependencyInference/inferFromRequirementstxt.py:27-33 | The entries of the lines, one per line in order, exactly when every line matches. |
| InferExtraDependencies.Collect | pyexec/dependencyInference/inferFromPipfile.py:24-36 | The parsers' loops give the empty dict as soon as one line does not match. Otherwise the names are exactly those of the lines. |
| InferExtraDependencies.CollectGet | pyexec/dependencyInference/inferFromPipfile.py:32-35 | When every line matches, a repeated name keeps the first non-null version it was given. |
| InferFromPipfile.SectionHeader | pyexec/dependencyInference/inferFromPipfile.py:9 | A header line starts with "[" and names a section of the name class. |
| InferFromPipfile.HeaderRoundTrip | pyexec/dependencyInference/inferFromPipfile.py:9 | Any number of "[", a name and any number of "]" open that section. |
| InferFromPipfile.DoubleBracketHeader | pyexec/dependencyInference/inferFromPipfile.py:9 | `[[source]]` opens the section "source". |
| InferFromPipfile.FoundSectionsAreSections | pyexec/dependencyInference/inferFromPipfile.py:38-55 | The dict built line by line maps each section to exactly the content lines whose nearest preceding header names it, in order. |
| InferFromPipfile.CurrentSection | pyexec/dependencyInference/inferFromPipfile.py:41-48 | No section is in force exactly when none of the lines seen so far is a header. |
| InferFromPipfile.Sections | pyexec/dependencyInference/inferFromPipfile.py:38-55 | A section is a key of the dict exactly when it received a content line, and it maps to those lines in order. |
| InferFromPipfile.FoundSections | pyexec/dependencyInference/inferFromPipfile.py:38-55 | The dict built line by line has only keys named by some header, and none of its lists is empty: a list is created only when its first line is appended. |
| InferFromPipfile.FileSections | pyexec/dependencyInference/inferFromPipfile.py:38-55 | `_find_sections` on a file's text, over its stripped lines, is the section dict of the declarative definition. |
| InferFromPipfile.SectionsSnocContent | pyexec/dependencyInference/inferFromPipfile.py:49-52 | A content line under a section is appended to that section's list, which is created when new. |
| InferFromPipfile.SectionsSnocOther | pyexec/dependencyInference/inferFromPipfile.py:43-54 | Blank lines, headers and lines before the first header leave the dict as it is. |
| InferFromPipfile.ReopenedSectionAppends | pyexec/dependencyInference/inferFromPipfile.py:46-52 | A header that comes back reopens its section: the later lines are appended to what it already held. |
| InferFromPipfile.PreambleDropped | pyexec/dependencyInference/inferFromPipfile.py:53-54 | Lines before the first header belong to no section. |
| InferFromPipfile.CurrentSectionAfter | pyexec/dependencyInference/inferFromPipfile.py:46-47 | Once a header has been seen, the lines before it do not decide the current section. |
| InferFromPipfile.SectionLinesNamed | pyexec/dependencyInference/inferFromPipfile.py:49-52 | Only a section named by some header can hold lines. |
| InferFromPipfile.InferFromPipfile.Open | pyexec/dependencyInference/inferFromPipfile.py:14-18 | ValueError when the path is not a regular file or its name is not exactly "Pipfile". |
| InferFromPipfile.InferFromPipfile.FindSections | pyexec/dependencyInference/inferFromPipfile.py:38-55 | `_find_sections` returns the sections of the file's text. |
| InferFromPipfile.InferFromPipfile.FindSectionsIn | pyexec/dependencyInference/inferFromPipfile.py:40-55 | The loop over the stripped lines builds the section dict line by line. |
| InferFromPipfile.InferFromPipfile.FileLine | pyexec/dependencyInference/inferFromPipfile.py:43-54 | One pass of that loop adds one stripped line to the dict and the current section. |
| InferFromPipfile.PipfileDependencies | pyexec/dependencyInference/inferFromPipfile.py:20-36 | KeyError exactly when there is no `packages` section: the `is None` test never runs. Otherwise the result is a dict, and it is empty as soon as one line fails the version pattern. |
| InferFromPipfile.InferFromPipfile.InferDependencies | pyexec/dependencyInference/inferFromPipfile.py:20-36 | `infer_dependencies` computes that, with the version class as written. |
| InferFromPipfile.InferFromPipfile.ParsePackages | pyexec/dependencyInference/inferFromPipfile.py:25-36 | The loop over the `packages` lines gives the keep-first dict of their entries, or the empty dict at the first line that does not match. |
| InferFromPipfile.EntryWith | pyexec/dependencyInference/inferFromPipfile.py:10-12 | A matched line yields a name of the name class that starts the line. A line not starting with a name character never matches. |
| InferFromPipfile.VersionPart | pyexec/dependencyInference/inferFromPipfile.py:10-12 | A captured version is never empty and holds only characters of the version class. |
| InferFromPipfile.PipfileEntry | pyexec/dependencyInference/inferFromPipfile.py:10-12 | `_version_regex` as written: the name is of the name class, a captured version holds only characters of the literal class `[/d/w._-]`, and a line that does not start with a name character never matches. |
| InferFromPipfile.PipfileEntryCorrected | pyexec/dependencyInference/inferFromPipfile.py:10-12 | With the intended class `[\d\w._-]`, both the name and a captured version are of the name class, and a line that does not start with a name character never matches. |
| InferFromPipfile.UnpinnedEntries | pyexec/dependencyInference/inferFromPipfile.py:10-12 | `name` alone and `name = "*"` map the name to None. |
| InferFromPipfile.PinnedEntry | pyexec/dependencyInference/inferFromPipfile.py:10-12 | `name = "<op><version>"` yields the version when all its characters are in the version class. |
| InferFromPipfile.PinnedVersionRejected | pyexec/dependencyInference/inferFromPipfile.py:11 | As written, a pinned version starting with a digit never matches. |
| InferFromPipfile.RequestsPinRejected | pyexec/dependencyInference/inferFromPipfile.py:11 | `requests = "==2.25.1"` fails as written and gives ("requests", "2.25.1") corrected. |
| InferFromPipfile.PinnedVersionCorrected | pyexec/dependencyInference/inferFromPipfile.py:11 | With the class `[\d\w._-]`, a pinned version is read back. |
| InferFromRequirementstxt.IsBound | pyexec/dependencyInference/inferFromRequirementstxt.py:10 | The upper bound `, ?<=? ?[\d._-]+` starts with a comma and is at least three characters long, so an empty rest or a lone line break is never a bound. |
| InferFromRequirementstxt.RequirementRest | pyexec/dependencyInference/inferFromRequirementstxt.py:9-11 | A version captured after the name and operator is of the name class. |
| InferFromRequirementstxt.RequirementEntry | pyexec/dependencyInference/inferFromRequirementstxt.py:9-11 | A matched line starts with its name. Name and version are of the name class, and a line not starting with a name character never matches. |
| InferFromRequirementstxt.BareRequirement | pyexec/dependencyInference/inferFromRequirementstxt.py:9-11 | A name alone maps to None. |
| InferFromRequirementstxt.PinnedRequirement | pyexec/dependencyInference/inferFromRequirementstxt.py:9-11 | `name<op>version`, with or without single spaces around the operator, yields the version. |
| InferFromRequirementstxt.BoundedRequirement | pyexec/dependencyInference/inferFromRequirementstxt.py:10 | `name<op>version,<bound` keeps the first version and drops the upper bound. |
| InferFromRequirementstxt.UnknownOperatorRejected | pyexec/dependencyInference/inferFromRequirementstxt.py:10 | Anything after the name other than a space, `[<=>]` or the end fails the line: `~=`, `!=`, extras, markers. |
| InferFromRequirementstxt.IncludeLineRejected | pyexec/dependencyInference/inferFromRequirementstxt.py:10 | An include line `-r file` fails. |
| InferFromRequirementstxt.Clean | pyexec/dependencyInference/inferFromRequirementstxt.py:23-24 | The cleaned line has no `#`. The corrected cleaning is also stripped. |
| InferFromRequirementstxt.CommentCut | pyexec/dependencyInference/inferFromRequirementstxt.py:23-24 | `name #comment` leaves `name ` as written, and `name` corrected. |
| InferFromRequirementstxt.Kept | pyexec/dependencyInference/inferFromRequirementstxt.py:22-26 | The lines the loop matches are non-empty, and there are no more of them than there are lines. |
| InferFromRequirementstxt.KeptMembers | pyexec/dependencyInference/inferFromRequirementstxt.py:22-26 | A line reaches the pattern exactly when something is left of it after cleaning. |
| InferFromRequirementstxt.KeptAppend | pyexec/dependencyInference/inferFromRequirementstxt.py:22-26 | The kept lines of a file are those of its first part followed by those of the rest: order is kept. |
| InferFromRequirementstxt.RequirementsDependencies | pyexec/dependencyInference/inferFromRequirementstxt.py:19-36 | The result is a dict, and it is empty as soon as one kept line does not match. |
| InferFromRequirementstxt.ParseEachPrefixNone | pyexec/dependencyInference/inferFromRequirementstxt.py:28-30 | A line that does not match empties the result, whatever follows it. |
| InferFromRequirementstxt.InlineCommentDropsAll | pyexec/dependencyInference/inferFromRequirementstxt.py:23-30 | As written, a requirement with an inline comment empties the whole result. |
| InferFromRequirementstxt.InlineCommentCorrected | pyexec/dependencyInference/inferFromRequirementstxt.py:23-35 | With the cut stripped again, the same file gives the name, unpinned. |
| InferFromRequirementstxt.InferFromRequirementstxt.Open | pyexec/dependencyInference/inferFromRequirementstxt.py:13-17 | ValueError when the path is not a regular file or its name is not exactly "requirements.txt". |
| InferFromRequirementstxt.InferFromRequirementstxt.InferDependencies | pyexec/dependencyInference/inferFromRequirementstxt.py:19-36 | `infer_dependencies` computes the result above, as written. |
| InferFromRequirementstxt.InferFromRequirementstxt.ParseLines | pyexec/dependencyInference/inferFromRequirementstxt.py:22-36 | The line loop gives the keep-first dict of the kept lines' entries, or the empty dict at the first mismatch. |
| InferFromRequirementstxt.InferFromRequirementstxt.PutLine | pyexec/dependencyInference/inferFromRequirementstxt.py:27-35 | One kept line: it matches exactly when the entries read so far can be extended by it, and then it is put with the keep-first rule. |
| InferFromSetuppy.Closer | pyexec/dependencyInference/inferFromSetuppy.py:56 | Only `(`, `[` and `{` have a partner, which is a different character. |
| InferFromSetuppy.ClosingIndex | pyexec/dependencyInference/inferFromSetuppy.py:61-70 | The loop breaks at the first position where the count of the opening kind returns to zero, and the index stays -1 when there is none. |
| InferFromSetuppy.Matched | pyexec/dependencyInference/inferFromSetuppy.py:53-75 | None for empty input or a first character that is not an opening bracket. Otherwise the result is `to_match[1:index-1]`. |
| InferFromSetuppy.MatchedCorrected | pyexec/dependencyInference/inferFromSetuppy.py:53-75 | The corrected slice fails exactly where the written one does. |
| InferFromSetuppy.ClosingAfterInner | pyexec/dependencyInference/inferFromSetuppy.py:61-70 | For an opener, a text holding neither that opener nor its closer, and the closer, the count returns to zero at the closer. |
| InferFromSetuppy.MatchedDropsLast | pyexec/dependencyInference/inferFromSetuppy.py:75 | As written, the character before the closer is lost too. |
| InferFromSetuppy.MatchedExample | pyexec/dependencyInference/inferFromSetuppy.py:75 | `_match_parentheses("(ab)")` is "a", and the corrected one is "ab". |
| InferFromSetuppy.MatchedCorrectedInner | pyexec/dependencyInference/inferFromSetuppy.py:75 | Corrected, the brackets' contents come back whole, whatever other brackets they hold. |
| InferFromSetuppy.ReplaceNewlines | pyexec/dependencyInference/inferFromSetuppy.py:30 | `replace("\n", " ")` keeps the length and changes exactly the newlines. |
| InferFromSetuppy.SetupCallMatches | pyexec/dependencyInference/inferFromSetuppy.py:9 | The anchored `^setup[([]` finds at most one match: the first six characters, when they are "setup(" or "setup[". |
| InferFromSetuppy.MatchMatchesItself | pyexec/dependencyInference/inferFromSetuppy.py:31-36 | A match found by `findall` is matched again by `match`, so the `m is None` branch cannot run. |
| InferFromSetuppy.FilterSetupCall | pyexec/dependencyInference/inferFromSetuppy.py:45-51 | No "setup(" in the text gives None. |
| InferFromSetuppy.SetupDependencies | pyexec/dependencyInference/inferFromSetuppy.py:20-43 | As written, the result is the empty dict or IndexError, which happens only when a setup call was found. |
| InferFromSetuppy.NoInstallRequires | pyexec/dependencyInference/inferFromSetuppy.py:24-26 | Without "install_requires=" in the call, the result is empty. |
| InferFromSetuppy.UnbracketedListEmpty | pyexec/dependencyInference/inferFromSetuppy.py:27-29 | A list not opened by a bracket right after the `=` gives the empty dict. |
| InferFromSetuppy.QuotedListEmpty | pyexec/dependencyInference/inferFromSetuppy.py:30-43 | The usual quoted `install_requires=["..."]` list gives the empty dict. |
| InferFromSetuppy.InferFromSetuppy.Open | pyexec/dependencyInference/inferFromSetuppy.py:14-18 | ValueError when the path is not a regular file or its name is not exactly "setup.py". |
| InferFromSetuppy.InferFromSetuppy.MatchParentheses | pyexec/dependencyInference/inferFromSetuppy.py:53-75 | The counter loop returns the `_match_parentheses` result above. |
| InferFromSetuppy.InferFromSetuppy.FilterSetupCallOf | pyexec/dependencyInference/inferFromSetuppy.py:45-51 | `_filter_setup_call` bracket-matches "(" followed by the text after the first "setup(". |
| InferFromSetuppy.InferFromSetuppy.InferDependencies | pyexec/dependencyInference/inferFromSetuppy.py:20-43 | `infer_dependencies` computes the as-written result above. |
| ExtraDependencies.ExtraDependenciesOf | pyexec/dependencyInference/extraDependencies.py:24-36 | A KeyError from the Pipfile parser is the only exception, and the result is a dict. |
| ExtraDependencies.FallbackOrder | pyexec/dependencyInference/extraDependencies.py:24-36 | A Pipfile that yields entries decides alone. Otherwise the result is exactly the requirements.txt dict, and with neither file it is empty. setup.py is never read. |
| ExtraDependencies.ExtraDependencies.Open | pyexec/dependencyInference/extraDependencies.py:11-22 | ValueError exactly when the project path is not an existing directory. |
| ExtraDependencies.ExtraDependencies.GetExtraDependencies | pyexec/dependencyInference/extraDependencies.py:24-36 | `get_extra_dependencies` computes the fallback above. |
| InferDependencys.Trunc | pyexec/dependencyInference/inferDependencys.py:78 | `int()` on a float truncates toward zero. |
| InferDependencys.ReadOutput | pyexec/dependencyInference/inferDependencys.py:164 | `from_dockerfile` with its default drops the directives and only raises InvalidFormatException. |
| InferDependencys.Classify | pyexec/dependencyInference/inferDependencys.py:155-169 | A specification only comes from standard output whose first line starts with "FROM python:" and which the reader accepts. OSError and other output give None. |
| InferDependencys.ClassifyIsParse | pyexec/dependencyInference/inferDependencys.py:161-169 | With `from_dockerfile` as the reader, an output is accepted exactly when `from_dockerfile` accepts it. |
| InferDependencys.Budget | pyexec/dependencyInference/inferDependencys.py:75-82 | Without a timeout the file is probed without a limit. With one, it is probed exactly when time is left, with the whole seconds left as its limit. |
| InferDependencys.FileOutcome | pyexec/dependencyInference/inferDependencys.py:75-82 | Once the budget is spent the file gives None without being probed. A specification is what the reader makes of the probe's standard output under the remaining budget. |
| InferDependencys.TimedOut | pyexec/dependencyInference/inferDependencys.py:84-89 | Never without a timeout. With one, for a non-negative elapsed time, the loop stops exactly when at least the timeout less two seconds has elapsed: `int()` truncation and the two seconds of slack together. |
| InferDependencys.Loop | pyexec/dependencyInference/inferDependencys.py:73-95 | The file loop yields one specification per file, or TimeoutException or NoEnvironmentFoundException. |
| InferDependencys.LoopOk | pyexec/dependencyInference/inferDependencys.py:73-95 | The loop gets through exactly when no file is late or without a specification, and then holds their specifications in file order: no file is skipped. |
| InferDependencys.LoopErrStays | pyexec/dependencyInference/inferDependencys.py:86-93 | Once the loop has raised, later files change nothing. |
| InferDependencys.InferOutcome | pyexec/dependencyInference/inferDependencys.py:64-97 | `inferDockerfile` only raises TimeoutException, NoEnvironmentFoundException or the merge's InvalidFormatException. |
| InferDependencys.FirstFailureDecides | pyexec/dependencyInference/inferDependencys.py:84-93 | The first failing file ends the run with TimeoutException when its time check fires, whatever its probe gave, and with NoEnvironmentFoundException otherwise. |
| InferDependencys.SpentBudgetTimesOut | pyexec/dependencyInference/inferDependencys.py:75-89 | A file reached after the budget is spent is not probed, and the run then ends with TimeoutException. |
| InferDependencys.NoFilesInvalid | pyexec/dependencyInference/inferDependencys.py:97 | No Python files gives the merge's InvalidFormatException, not NoEnvironmentFoundException. |
| InferDependencys.NoLimitNeverTimesOut | pyexec/dependencyInference/inferDependencys.py:84-89 | Without a timeout the run never ends in TimeoutException. |
| InferDependencys.PassedEveryFile | pyexec/dependencyInference/inferDependencys.py:73-95 | A successful run got every file through both checks. |
| InferDependencys.MergedInFileOrder | pyexec/dependencyInference/inferDependencys.py:95-97 | When every file passes, the result is `merge_dependencies` of their specifications in file order. |
| InferDependencys.ProbedStep | pyexec/dependencyInference/inferDependencys.py:94-95 | A file that passes appends its specification. |
| InferDependencys.ProbedFails | pyexec/dependencyInference/inferDependencys.py:84-93 | A file that does not pass, after files that did, decides the loop's exception. |
| InferDependencys.InferDockerfile.Open | pyexec/dependencyInference/inferDependencys.py:25-35 | DirectoryNotFoundException for a missing path, NotADirectoryException for a non-directory. Otherwise the stored path has its trailing "/" removed. |
| InferDependencys.InferDockerfile.InferDockerfile | pyexec/dependencyInference/inferDependencys.py:64-97 | Raises exactly what the specification raises, and otherwise gives a new instance holding the merged specification. |
| InferDependencys.InferDockerfile.ProbeFiles | pyexec/dependencyInference/inferDependencys.py:73-95 | The file loop raises what the loop specification raises, and otherwise collects instances whose states are its specifications. |
| InferDependencys.InferDockerfile.CheckTime | pyexec/dependencyInference/inferDependencys.py:84-89 | The time check fires exactly when a timeout is set and `int(elapsed) + 2 >= timeout`. |
| InferDependencys.InferDockerfile.ProbeFile | pyexec/dependencyInference/inferDependencys.py:75-82 | The budget test and the probe give what the file's outcome specification says. |
| InferDependencys.InferDockerfile.ExecuteV2 | pyexec/dependencyInference/inferDependencys.py:130-169 | `__execute_v2` gives a new instance exactly for a classified specification, with that state. |
| LegacyInferDependencys.ExecuteV2 | pyexec/dependencyInferrance/inferDependencys.py:45-53 | The stripped output, which is non-empty and stripped. It raises NoEnviromentFoundExcpetion exactly when only white space is left. |
| LegacyInferDependencys.ExecuteV2Idempotent | pyexec/dependencyInferrance/inferDependencys.py:46-53 | Post-processing its own result changes nothing. |
| LegacyInferDependencys.BodyLines | pyexec/dependencyInferrance/inferDependencys.py:57-59 | Each input keeps all its lines but the last. |
| LegacyInferDependencys.MergedDockerfiles | pyexec/dependencyInferrance/inferDependencys.py:55-60 | `__mergeDockerfiles` raises IndexError exactly when an input has no lines. |
| LegacyInferDependencys.MergedLinesProvenance | pyexec/dependencyInferrance/inferDependencys.py:57-60 | The merged lines are pairwise distinct. A line is among them exactly when it is a line, other than the last, of some input. |
| LegacyInferDependencys.ExecutedOutputsMerge | pyexec/dependencyInferrance/inferDependencys.py:45-60 | Outputs that went through `__execute_v2` never make the merge raise. |
| LegacyInferDependencys.MergeDropsLastLine | pyexec/dependencyInferrance/inferDependencys.py:59 | A single input loses its last line: "a\nb" merges to "a". |
| LegacyInferDependencys.InferDockerfile.Open | pyexec/dependencyInferrance/inferDependencys.py:15-25 | FileNotFoundError for a missing path, NotADirectoryError for a non-directory. |
| LegacyInferDependencys.InferDockerfile.InferDockerfile | pyexec/dependencyInferrance/inferDependencys.py:27-32 | The loop runs over the empty list it fills, so the result is always "". |
| LegacyInferDependencys.InferDockerfile.MergeDockerfiles | pyexec/dependencyInferrance/inferDependencys.py:55-60 | Popping the last line of each list in place computes the merge specification. |
| Miner.Literal | pyexec/mining/miner.py:73-75 | A pattern literal matches, without case and with `.` for any character but "\n", exactly at the start. |
| Miner.GithubMatch | pyexec/mining/miner.py:73-75 | Group 3 has no "/" and group 4 stops at the line end. |
| Miner.SkipScheme | pyexec/mining/miner.py:73-75 | `(http[s]?://)?` removes nothing, 7 characters ("http://") or 8 ("https://"); text that does not start with "http" in any case is left as it is. |
| Miner.SkipSchemeSuffix | pyexec/mining/miner.py:73-75 | What is left after the optional scheme is the end of the text: the group only removes a prefix. |
| Miner.HostMatch | pyexec/mining/miner.py:73-75 | After the host, group 3 has no "/" and group 4 stops at the line end. |
| Miner.RepositoryPath | pyexec/mining/miner.py:253-256 | The user and repository returned contain no "/". |
| Miner.UrlRoundTrip | pyexec/mining/miner.py:248-256 | A repository link, with or without a trailing slash, gives back its user and repository name. |
| Miner.SubpageGivesRepository | pyexec/mining/miner.py:255-256 | "github.com/u/r/tree/x" gives ("u", "r"). |
| Miner.AnchoredAtStart | pyexec/mining/miner.py:253 | The match is anchored: text starting with another letter is no GitHub link, even when one follows. |
| Miner.PathGroups | pyexec/mining/miner.py:73-75 | After "github.com/", group 3 is the user and group 4 cut at "/" is the repository. |
| Miner.HostGroups | pyexec/mining/miner.py:73-75 | For "github.com/" followed by a user, "/", a name and nothing or a "/…" tail, group 3 is the user and group 4, cut at its first "/", is the name. |
| Miner.MatchAfterHost | pyexec/mining/miner.py:73-75 | The same holds for any text that is that host and path once the scheme and "www." are skipped. |
| Miner.FirstMatch | pyexec/mining/miner.py:251-256 | None exactly when no field matches. Otherwise the first matching field decides. |
| Miner.ExtractRepositoryPath | pyexec/mining/miner.py:245-256 | The first loop tries "home_page" and then "download_url", and returns the first match. |
| Miner.HomePageFirst | pyexec/mining/miner.py:251-256 | A link in the home page wins over one in the download URL. |
| Miner.V2Outcome | pyexec/mining/miner.py:220-230 | `_run_v2` only lets the constructor's exceptions and the merge's InvalidFormatException through. |
| Miner.V2NoneMeansNoEnvironment | pyexec/mining/miner.py:220-230 | Without a timeout, `_run_v2` gives None exactly when the run ends in NoEnvironmentFoundException. An empty project raises InvalidFormatException. |
| Miner.ExtrasOutcome | pyexec/mining/miner.py:232-243 | `_get_extra_dependencies` gives a valid Python 3.8 specification with no apt entries, no directives and a non-empty pip table. Its exceptions are ValueError and KeyError. |
| Miner.ExtrasFromFallback | pyexec/mining/miner.py:232-243 | The pip table is the Pipfile's mapping, in order, when that mapping is non-empty. |
| Miner.V2OutcomeAsWritten | pyexec/mining/miner.py:220-223 | `_run_v2` as written always raises. For an existing directory it raises AttributeError, from `rstrip` on the `Path` it passes to the constructor. Otherwise it raises TypeError, from the constructor's str + Path message. |
| Miner.CheckoutAsWrittenRaises | pyexec/mining/miner.py:185-193 | As written, checkout raises AttributeError even for a project whose extra dependencies would be found. With the intended call, such a project gets them with source "Extras". |
| Miner.CheckoutCorrected | pyexec/mining/miner.py:185-193 | With the intended call, checkout of a project directory raises only the merge's InvalidFormatException or the fallback's own exception. |
| Miner.RunV2 | pyexec/mining/miner.py:220-230 | `_run_v2` computes that outcome, with a new instance for a specification. |
| Miner.GetExtraDependencies | pyexec/mining/miner.py:232-243 | `_get_extra_dependencies` computes that outcome, with a new instance for a specification. |
| Miner.AddPipDependencies | pyexec/mining/miner.py:237-238 | The loop merges the mapping, in order, into the pip dict of the new instance. |
| Miner.Selected | pyexec/mining/miner.py:185-193 | Only `dockerfile` and `dockerfile_source` change. The source is "V2" with the probe's specification, or "Extras" with the fallback's when the probe gave none. With neither, no specification is set. |
| Miner.V2TakesPriority | pyexec/mining/miner.py:185-193 | Once the probe gives a specification, the fallback plays no part. |
| Miner.SelectDockerfile | pyexec/mining/miner.py:185-193 | The checkout step computes that selection. |
| PackageInfo.Fresh | pyexec/mining/packageInfo.py:10-38 | `PackageInfo(name)` has every flag, stored or derived, false and every optional field None. |
| PackageInfo.PackageInfo.HasTestsuit | pyexec/mining/packageInfo.py:24-26 | A test suite was found exactly when a test case count is stored; the test is `is not None`, so a count of 0 still counts. |
| PackageInfo.PackageInfo.TestsuitExecuted | pyexec/mining/packageInfo.py:28-30 | Executed implies found. It holds exactly when a count is stored and the image was built. |
| PackageInfo.PackageInfo.TestsuitResultParsed | pyexec/mining/packageInfo.py:32-34 | Parsed exactly when a test result is stored, also for a suite not marked as executed. |
| PackageInfo.PackageInfo.GithubLinkFound | pyexec/mining/packageInfo.py:36-38 | Found exactly when a repository link is stored, also when that repository does not exist. |
| Stats.Validate | pyexec/evaluateOutput/stats.py:14-27 | Not a list, or a list holding something other than a PackageInfo, gives ValueError. The empty list gives TypeError from `reduce`. Otherwise the records come in order. |
| Stats.Count | pyexec/evaluateOutput/stats.py:29-30 | `__accumulate` counts at most every record. |
| Stats.CountIsCardinality | pyexec/evaluateOutput/stats.py:29-30 | The count is the number of positions whose record satisfies the predicate, which is the length of the filtered list. |
| Stats.CountMonotone | pyexec/evaluateOutput/stats.py:29-30 | A predicate implied by another counts at least as many records. |
| Stats.CountAppend | pyexec/evaluateOutput/stats.py:29-30 | Counting distributes over concatenation. |
| Stats.CountAll | pyexec/evaluateOutput/stats.py:29-30 | The count reaches the number of records exactly when every record satisfies the predicate. |
| Stats.RepoInfos | pyexec/evaluateOutput/stats.py:59-60 | `__repo_info` has one entry per record that has repository data. |
| Stats.RepoInfosAppend | pyexec/evaluateOutput/stats.py:59-60 | The entries keep the input order. |
| Stats.RepoInfosFrom | pyexec/evaluateOutput/stats.py:59-60 | An entry is listed exactly when some record holds it. |
| Stats.Stats.Open | pyexec/evaluateOutput/stats.py:14-27 | ValueError unless the path is a file. Otherwise the type check decides, and a success holds the records. |
| Stats.Stats.ProjectOnPypi | pyexec/evaluateOutput/stats.py:35-36 | At most `projects_attempted`. |
| Stats.Stats.ProjectsAttempted | pyexec/evaluateOutput/stats.py:32-33 | Every record counts: `projects_attempted` is the count of the predicate that always holds, so it bounds every other counter. |
| Stats.Stats.GithubLinkFound | pyexec/evaluateOutput/stats.py:38-39 | At most `projects_attempted`. |
| Stats.Stats.GithubReposFound | pyexec/evaluateOutput/stats.py:41-42 | At most `projects_attempted`. |
| Stats.Stats.DockerfilesInferred | pyexec/evaluateOutput/stats.py:44-45 | At most `projects_attempted`. |
| Stats.Stats.DockerimagesBuilt | pyexec/evaluateOutput/stats.py:47-48 | At most `projects_attempted`. |
| Stats.Stats.TestsuitFound | pyexec/evaluateOutput/stats.py:50-51 | At most `projects_attempted`. |
| Stats.Stats.TestsuitExecuted | pyexec/evaluateOutput/stats.py:53-54 | At most `projects_attempted`. |
| Stats.Stats.TestsuitParsed | pyexec/evaluateOutput/stats.py:56-57 | At most `projects_attempted`. |
| Stats.Stats.ExecutedBounds | pyexec/evaluateOutput/stats.py:47-54 | `testsuit_executed` is at most `testsuit_found` and at most `dockerimages_built`. |
| Stats.Stats.Locs | pyexec/evaluateOutput/stats.py:62-63 | One line count per record with repository data, in input order. |
| Stats.Stats.Comlexities | pyexec/evaluateOutput/stats.py:65-66 | One complexity per record with repository data, in input order. |

## Left out

- File system, processes and clock. These are parameters: whether a path exists or is a file or directory, the file texts, the `find` file list, the probe's outcome and the elapsed time. The `find | sed` PYTHONPATH construction and launching `v2` and `timeout` are not modelled.
- InferDependencys.Trunc: the elapsed times are exact reals, not binary floating point.
- Logging and the `print` in `__execute_v2`: they have no effect on results.
- Unicode: `\w`, `\d`, `strip` and `splitlines` are modelled on ASCII only. So is the IGNORECASE matching of the GitHub pattern (pyexec/mining/miner.py:73-75): Python also matches "K" (U+212A, Kelvin sign) with "k" and "ſ" (U+017F, long s) with "s", while Miner.PatternChar and Text.SameLetter fold ASCII letters only.
- The readthedocs scraping loop of `__extract_repository_path` (pyexec/mining/miner.py:258-273) fetches web pages over the network.
- Miner.ExtractRepositoryPath: it takes the two field values, so a missing key (KeyError) or a None field of `repo_info` is not modelled.
- Miner.RunV2: it models the intended call, the class's own `inferDockerfile` on a str path without a timeout. The as-written call always raises. It is modelled by Miner.V2OutcomeAsWritten and listed under the findings. The intended call also assumes that the second argument is a `Logger` or None. The miner passes its log file, a `Path` (pyexec/mining/miner.py:71), so when one is set the first `self.__logger.debug` in `InferDockerfile` would raise AttributeError; logging is not modelled.
- Miner.SelectDockerfile: the git clone, directory checks and test runner steps of `__checkout` around it are not modelled.
- The rest of the miner (CLI, batch loop, pickling, the `Miner` constructor) is orchestration and I/O.
- PackageInfo holds a `Spec` value, not a reference to a `Dependencies` instance. The test and GitHub records are opaque types.
- The `_dependency_regex` of pyexec/dependencyInference/inferFromSetuppy.py:10-12 is never used by the code, so it is not modelled.
- `Dependencies.__repr__` is `to_dockerfile`, including its pop of "python-pip". It is not modelled separately.
- Dependencies.Dependencies.MergeDependencies: the dicts are merged into local tables and then assigned to the new instance. The result and the order are the same as merging in place.
- `min_python_versions`, `active_times`, `exits_since` and `main` of stats.py read fields RepoInfo lacks, use dates, or only print.
- Stats.Validate: the unpickled object is a parameter, and reading the pickle is not modelled.
- The abstract `infer_dependencies` of the base class only raises NotImplementedError.

## Findings

| source | as written | input that shows it | evidently intended | confidence | as-written member | corrected member |
|---|---|---|---|---|---|---|
| pyexec/util/dependencies.py:84-88 | `to_dockerfile` writes `RUN ["python", "-m", "pip", "install", "--upgrade", "pip"]`, which none of the RUN patterns accepts, so `from_dockerfile` raises on every text `to_dockerfile` writes | `Dependencies("FROM python:3.8").to_dockerfile()` read back with `from_dockerfile` | `from_dockerfile(to_dockerfile(d))` gives back d's version, dicts and directives | high; not executed | Dependencies.SerializeNotReparsed | Dependencies.RoundTripCorrected |
| pyexec/dependencyInference/inferFromPipfile.py:11 | the version class `[/d/w._-]` holds only `/ d w . _ -`, so a pinned version starting with a digit never matches and the whole `packages` section is dropped | `requests = "==2.25.1"` | the class `[\d\w._-]` | high; not executed | InferFromPipfile.PinnedVersionRejected | InferFromPipfile.PinnedVersionCorrected |
| pyexec/dependencyInference/inferFromSetuppy.py:75 | `to_match[1:index-1]` drops the character before the closing bracket as well | `_match_parentheses("(ab)")` gives "a" | `to_match[1:index]`, the text between the brackets | high; not executed | InferFromSetuppy.MatchedDropsLast | InferFromSetuppy.MatchedCorrectedInner |
| pyexec/dependencyInference/inferFromRequirementstxt.py:23-24 | the line is stripped before it is cut at `#`, so the space before an inline comment stays, the pattern's `$` refuses it, and the whole result is emptied | a requirements.txt holding `requests #http` | strip after the cut, giving {"requests": None} | high; not executed | InferFromRequirementstxt.InlineCommentDropsAll | InferFromRequirementstxt.InlineCommentCorrected |
| pyexec/mining/miner.py:220-223 | `_run_v2` passes a `Path` to a constructor that calls `rstrip` on it, and then calls `infer_dockerfile`, which the class does not define. The AttributeError is not caught, so checkout never records a build specification. | any checked-out project directory | build `InferDockerfile(str(projectdir))` with a `Logger` or None as the logger (not the log file's `Path`), call `inferDockerfile()`, and fall back to the extra dependencies when no environment is found | high; not executed | Miner.CheckoutAsWrittenRaises | Miner.CheckoutCorrected |

The parsers, the `Dependencies` class and the probe driver follow the code as
written, because that is what the program does. Their corrected members stand
beside the as-written ones. The miner is the exception: as written, `_run_v2`
never gets past the constructor. The miner's members therefore use the intended
call, and `V2OutcomeAsWritten` records what the code does. The corrected members:
- `ParseDockerfileCorrected` and `ParseRunCommandCorrected`;
- `PipfileEntryCorrected`;
- `MatchedCorrected`;
- `Clean(…, true)`;
- `V2Outcome`, which `RunV2` and `SelectDockerfile` compute.
