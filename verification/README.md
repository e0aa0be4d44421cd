# nshsnap core, modelled in Dafny

nshsnap takes a *snapshot* of Python packages. It copies each selected
module's source tree into a fresh snapshot directory. That directory is
git-ignored. It also gets a `.nshsnapmeta` folder (the configuration, the
`pip freeze` output and metadata) and a `.bin` folder (activation and
execution scripts), so a job can later run against frozen code. This
project models the parts that decide what ends up in a snapshot:

- **Module selection** (`Config`, `PipDeps`). The configured modules are
  merged with the editable pip packages. Each editable distribution gets
  an importable name, found through `top_level.txt` or four spelling
  variants. The result is a sorted, duplicate-free list.
- **Snapshot directory** (`Config`, `Util`). The default directory is made
  below the home directory. A git-ignored directory is created with a
  `.gitignore` holding `*`.
- **Snapshotting** (`Snapshot`). `git` and `rsync` must be present. The
  metadata files and scripts are written. Each module is located with
  `find_spec` and copied to its dotted destination, with `__init__.py`
  files in the parent packages. The two not-found policies (`raise`,
  `warn`) and the assertion failures are modelled.
- **Parent-module resolution** (`ResolveModules`). This finds the top-level
  user packages that a set of configuration values (classes, instances,
  containers) comes from, for the three depths `deep`, `deep-builtin` and
  `shallow`. It models the memo cache keyed by module name as written.
- **The file dumper** `scripts/dump_files.py` (`DumpFiles`). A
  breadth-first walk that respects parent and nested `.gitignore` files
  and filters by extension and include/exclude patterns. It is proved to
  return, sorted, exactly what a recursive reference walk collects.

The filesystem is a map from absolute part lists to directories and
files (`FileSystem`). A step with side effects returns an `Outcome`: the
filesystem it leaves behind plus a value or the exception raised. This
way a failure half-way through still shows what was already written.

The following are parameters (oracles), not modelled code:
- the interpreter (`find_spec`, `importlib.metadata`, the set of
  standard-library names);
- the external commands (`git ls-files`, `rsync`, `pip list`,
  `pip freeze`);
- the JSON encoders;
- `fnmatch` and the gitignore matcher;
- the home directory and the snapshot id.

## Model

| member | source | states |
|---|---|---|
| Text.UpTo | src/nshsnap/_resolve_modules.py:18 | `split(sep, 1)[0]`: a prefix of the text with no separator in it, followed in the text by the separator whenever it is shorter |
| Text.Split | src/nshsnap/_snapshot.py:121 | `split('.')` yields at least one piece and no piece contains the separator |
| Text.JoinSplit | src/nshsnap/_snapshot.py:121 | splitting loses nothing: joining the pieces with the separator gives the text back |
| Text.SplitJoin | src/nshsnap/_snapshot.py:121 | the other direction of the round trip: separator-free pieces, joined and split again, come back unchanged |
| Text.Strip | src/nshsnap/_pip_deps.py:32 | `strip()` is the slice between the leading and the trailing whitespace; it starts and ends with non-space; it is empty exactly when the text is all whitespace |
| Text.Lower | src/nshsnap/_pip_deps.py:40 | `lower()` keeps the length and maps each ASCII capital to its lower-case letter, leaving every other character as it is |
| Text.Replace | src/nshsnap/_pip_deps.py:39 | `replace("-", "_")` keeps the length and turns each `-` into `_`, keeping every other character; no `-` is left |
| Text.SplitLines | src/nshsnap/_snapshot.py:48 | `splitlines()` yields lines that contain no line boundary |
| Text.SplitLinesTerminated | src/nshsnap/_snapshot.py:36-48 | reading back command output printed one path per line gives exactly those paths |
| Paths.Child | src/nshsnap/_snapshot.py:125 | `p / name` appends one part and keeps absoluteness; an empty name changes nothing |
| Paths.ChildAllParts | src/nshsnap/_snapshot.py:123-125 | joining a sequence of names appends exactly its non-empty names |
| Paths.Absolute | src/nshsnap/_snapshot.py:135 | `absolute()` is absolute, leaves absolute paths alone, and puts the working directory in front of relative ones |
| FileSystem.MkDirs | src/nshsnap/_util.py:10 | `mkdir(parents=True, exist_ok=True)` succeeds exactly when no file is on the way; then every ancestor is a directory, nothing old changes, and only directories on the path are new |
| FileSystem.MkDirsExisting | src/nshsnap/_util.py:10 | making a directory whose ancestors all exist as directories changes nothing |
| FileSystem.MkDir | src/nshsnap/_snapshot.py:167 | `mkdir(exist_ok=True)` succeeds exactly when the path is already a directory, or is absent with a directory parent; an existing file there fails; only that entry changes |
| FileSystem.Touch | src/nshsnap/_snapshot.py:127 | `touch(exist_ok=True)` keeps an existing entry as it is and otherwise creates an empty file, which needs a parent directory |
| FileSystem.WriteText | src/nshsnap/_snapshot.py:170 | `write_text` succeeds exactly when the target is no directory and its parent is one; the file then holds exactly the text and nothing else changes |
| Util.GitignoredDir | src/nshsnap/_util.py:8-18 | returns the path it was given, now a directory that holds a `.gitignore`. An existing `.gitignore` is untouched; a new one holds `*`. With `create` it succeeds exactly when the directory can be made, and otherwise fails with the `mkdir` error. Without `create` it succeeds exactly when the path is a directory already, and otherwise raises the assertion |
| Util.GitignoredDirIdempotent | src/nshsnap/_util.py:8-18 | running it again on the directory it produced changes nothing and succeeds |
| Util.AncestorsAreDirs | src/nshsnap/_util.py:10-11 | in a well-formed tree every ancestor of a directory is a directory |
| Sorting.SortedSet | src/nshsnap/_config.py:59-67 | `sorted(set(...))` is strictly increasing and holds exactly the input's elements |
| Sorting.StrictlySortedUnique | src/nshsnap/_config.py:67 | two strictly sorted lists with the same elements are equal, so the merge has one possible result |
| Sorting.StrictlySortedDistinct | src/nshsnap/_config.py:59-67 | the merged list holds no name twice |
| Sorting.StrLt | src/nshsnap/_config.py:67 | Python's `<` on `str`, which `sorted` uses; `StrLtFirstDifference` states what it means |
| Sorting.StrLtFirstDifference | src/nshsnap/_config.py:67 | two strings are ordered by the first position where they differ, the smaller code point first, and a proper prefix comes before the longer string |
| Sorting.StrLtTotal | src/nshsnap/_config.py:67 | Python's string order is total on distinct strings |
| Sorting.StrLtTransitive | src/nshsnap/_config.py:67 | Python's string order is transitive |
| Sorting.SortPaths | scripts/dump_files.py:87 | `sorted(result)` is ordered by path parts and is a permutation of its input |
| Sorting.PathsSortedUnique | scripts/dump_files.py:87 | two sorted permutations of the same absolute paths are equal |
| Sorting.PathLtTotal | scripts/dump_files.py:87 | the path order is total on distinct part lists |
| Sorting.PathLt | scripts/dump_files.py:87 | `<` on `pathlib` paths, which `sorted` uses; `PathLtFirstDifference` states what it means |
| Sorting.PathLtFirstDifference | scripts/dump_files.py:87 | two paths are ordered by the first part where they differ, compared as strings, and a path comes before the paths below it |
| PipDeps.Discriminator | src/nshsnap/_pip_deps.py:51-59 | the tag is `editable` exactly when the `editable_project_location` key (for a mapping) or attribute (for an object) is present, and `regular` otherwise |
| PipDeps.Validate | src/nshsnap/_pip_deps.py:10-21 | an entry from `pip list` validates exactly when it has a string name, any `type` matches the discriminator and any location is a string; the result keeps the name and version, with the tag the discriminator chose |
| PipDeps.ValidateDump | src/nshsnap/_pip_deps.py:62-66 | the discriminator picks a dependency's own tag from its dump, and validating the dump gives the dependency back |
| PipDeps.ValidateDefaults | src/nshsnap/_pip_deps.py:11-21 | a bare name validates to a regular dependency with no version; adding a location makes it editable |
| PipDeps.TopLevelText | src/nshsnap/_pip_deps.py:29-31 | a `top_level.txt` is used exactly when the distribution is installed and the file is present and non-empty; an empty file counts as absent |
| PipDeps.ParseDependencies | src/nshsnap/_pip_deps.py:70-78 | the list validates exactly when every entry does, entry by entry, in order |
| PipDeps.CurrentPipDependencies | src/nshsnap/_pip_deps.py:70-78 | a failing `pip list` raises. Otherwise it succeeds exactly when every printed entry validates, and then gives the validated entries in order |
| PipDeps.FirstLine | src/nshsnap/_pip_deps.py:32 | the first line of the stripped text: a newline-free prefix of it that runs up to the first newline, or to the end when there is none |
| PipDeps.FirstLineOfListing | src/nshsnap/_pip_deps.py:32 | for a `top_level.txt` whose first line has no surrounding whitespace, that line is the answer |
| PipDeps.Candidates | src/nshsnap/_pip_deps.py:37-42 | exactly four candidates: the name, the name with `-` turned into `_`, the lower-cased name, and the lower-cased name with `-` turned into `_` |
| PipDeps.FirstHit | src/nshsnap/_pip_deps.py:44-46 | the index of the first candidate `find_spec` does not report missing; every earlier one is missing |
| PipDeps.FirstFound | src/nshsnap/_pip_deps.py:44-48 | `None` exactly when every candidate is missing. Otherwise the first candidate that is not missing decides: it is returned when found, and its lookup error propagates when `find_spec` raised |
| PipDeps.ImportableModuleName | src/nshsnap/_pip_deps.py:23-48 | a non-empty `top_level.txt` decides (its first stripped line). Otherwise the candidates are tried. `None` comes exactly when there is no top-level text and all four candidates are missing |
| PipDeps.BlankTopLevelGivesEmptyName | src/nshsnap/_pip_deps.py:31-32 | a `top_level.txt` holding only whitespace yields the empty module name, not `None` |
| Config.Flatten | src/nshsnap/_config.py:61-64 | an element is in the union exactly when it is in one of the arguments |
| Config.MergeModules | src/nshsnap/_config.py:59-67 | the merge is strictly sorted and holds exactly the elements of all its arguments |
| Config.MergeCommutes | src/nshsnap/_config.py:59-67 | the order of the arguments does not matter |
| Config.MergeIdempotent | src/nshsnap/_config.py:59-67 | merging an already merged list changes nothing |
| Config.YieldOf | src/nshsnap/_config.py:37-56 | a regular dependency yields nothing. An editable one yields exactly the name `importable_module_name` returns. Without a name it raises `ValueError` under `raise` and yields nothing under `warn`. An exception from the name lookup propagates unchanged |
| Config.Editables | src/nshsnap/_config.py:37-39 | keeps exactly the editable dependencies |
| Config.Then | src/nshsnap/_config.py:37-56 | sequencing two steps of the generator succeeds exactly when both do; the first failure wins and the yields concatenate |
| Config.EditableNames | src/nshsnap/_config.py:36-56 | the generator over listed dependencies yields at most one name per editable dependency, and only when every editable lookup returned. Under `raise` it yields exactly one per editable dependency, each of which has a name. `EditableNamesReference` gives its exact result |
| Config.EditableNamesReference | src/nshsnap/_config.py:36-56 | the generator succeeds exactly when every editable lookup returns, and under `raise` finds a name. It then yields the independent reference: the names of the editable dependencies in order, the unnamed ones dropped |
| Config.EditableNamesAppend | src/nshsnap/_config.py:37-56 | the generator over two lists is the generator over the first followed by that over the second |
| Config.RegularIgnored | src/nshsnap/_config.py:38-39 | regular dependencies make no difference to the result |
| Config.WarnSkipsUnnamed | src/nshsnap/_config.py:50-52 | under `warn` an unnamed editable package is as if absent |
| Config.RaiseStopsAtUnnamed | src/nshsnap/_config.py:48-49 | under `raise` the first unnamed editable package ends the run with `ValueError` |
| Config.EditableModules | src/nshsnap/_config.py:36-37 | a failing `pip list` raises, and a listing that fails validation raises that error. It succeeds exactly when `pip list` works, every entry validates and every editable dependency is nameable; the names are then the reference list |
| Config.ResolveModules | src/nshsnap/_config.py:87-94 | without editable modules the configured list is returned as is. With them, the result is sorted and holds exactly the configured and the editable names, and it fails exactly when the editable lookup fails |
| Config.DefaultSnapshotDir | src/nshsnap/_config.py:29-33 | succeeds exactly when no file lies on the way to `~/.cache/nshsnap/snapshots/<id>`. Then that path is returned and is a directory holding a `.gitignore`. Nothing that existed is lost |
| Config.DefaultSnapshotDirAdds | src/nshsnap/_config.py:29-33 | making the default directory adds nothing but the directories on the way to it and its `.gitignore` |
| Config.ResolveSnapshotDir | src/nshsnap/_config.py:96-99 | a configured directory is returned untouched without filesystem effects; otherwise the default directory is made |
| Config.DefaultsResolve | src/nshsnap/_config.py:70-99 | the default configuration resolves to the sorted editable modules (policy `warn`) and the default directory |
| Snapshot.CopyExcludes | src/nshsnap/_snapshot.py:51-58 | `.git` is always excluded first, followed by every line `git ls-files` printed |
| Snapshot.CopyExcludesOfListing | src/nshsnap/_snapshot.py:35-58 | ignored paths printed one per line come back as exactly those exclusions after `.git` |
| Snapshot.Copy | src/nshsnap/_snapshot.py:23-63 | a failing `git` raises before anything is copied, and a failing `rsync` raises. A success returns what `rsync` left and is a copy in the sense of `CopyOk`: the tree stays well-formed, nothing is removed, and only entries below the destination are new or changed |
| Snapshot.MetadataDir | src/nshsnap/_snapshot.py:74-76 | the metadata directory is the snapshot directory's `.nshsnapmeta` child |
| Snapshot.MakePackage | src/nshsnap/_snapshot.py:125-127 | creating one parent package succeeds exactly when no file is on the way; the package is a directory holding `__init__.py`; only directories and empty files are new |
| Snapshot.MakePackages | src/nshsnap/_snapshot.py:123-127 | every parent package on the way is a directory with an `__init__.py`; the result is the joined destination; existing entries are kept and new ones are directories or empty files |
| Snapshot.PackagesKept | src/nshsnap/_snapshot.py:124-127 | the packages made by the first iteration survive the later ones |
| Snapshot.MakePackagesFails | src/nshsnap/_snapshot.py:123-127 | a file anywhere on the way to the innermost parent package makes the package loop fail |
| Snapshot.MakePackagesSucceeds | src/nshsnap/_snapshot.py:123-127 | with no file on the way to the innermost parent package, and no part named `__init__.py`, the package loop succeeds |
| Snapshot.ParentParts | src/nshsnap/_snapshot.py:121 | the parent packages of `a.b.c` are dot-free parts, and there are none exactly when the name has no dot |
| Snapshot.LastPart | src/nshsnap/_snapshot.py:121 | the module's own name is dot-free, and an undotted name is its own last part |
| Snapshot.NameFromParts | src/nshsnap/_snapshot.py:121 | joining the parent parts and the last part with dots gives the module name back |
| Snapshot.SnapshotModule | src/nshsnap/_snapshot.py:100-133 | A lookup error propagates unchanged. A missing module raises `ValueError` under `raise` and is skipped under `warn`, without effects. Several or non-directory locations fail the assertion, without effects. Otherwise the turn is `MoveFound`. A move records the module's single location and its destination `<dir>/<parents>/<last part>`, and leaves every parent package a directory holding `__init__.py`. Nothing is removed |
| Snapshot.MoveFound | src/nshsnap/_snapshot.py:121-133 | a failure to make the parent packages, or of the copy, propagates with the effects so far. On success the packages exist and the filesystem is exactly what `rsync` made of the module's directory copied into the innermost package |
| Snapshot.CopyModule | src/nshsnap/_snapshot.py:129-133 | with the packages made, a copy failure propagates unchanged. A copy keeps the packages and records the module at `<innermost package>/<last part>` |
| Snapshot.MoveFoundSucceeds | src/nshsnap/_snapshot.py:121-129 | when `git` and `rsync` work, a found module is moved exactly when it is top-level or no file lies on the way to its innermost parent package |
| Snapshot.TopLevelTurn | src/nshsnap/_snapshot.py:100-133 | when `git` and `rsync` work, the turn of a top-level module succeeds exactly when its lookup raised nothing and it is found in one directory, or is missing under `warn`. The turn changes nothing outside the snapshot directory |
| Snapshot.TopLevelLoop | src/nshsnap/_snapshot.py:99-133 | when `git` and `rsync` work and the modules are top-level ones located outside the snapshot directory, the loop succeeds exactly when every lookup lets its module through, as `TopLevelTurn` states |
| Snapshot.SplitParts | src/nshsnap/_snapshot.py:121 | the dotted name splits into the parent parts and the last part; a dotted name has at least one parent |
| Snapshot.DottedDestination | src/nshsnap/_snapshot.py:121-131 | a dotted module lands at the snapshot directory joined with every part of its name |
| Snapshot.SnapshotLoopAppend | src/nshsnap/_snapshot.py:100-133 | the loop over two lists is the loop over the first continued, from the filesystem it left, by the loop over the second |
| Snapshot.SnapshotLoop | src/nshsnap/_snapshot.py:99-133 | the `for module in modules` loop, stopping at the first exception with the effects so far: the tree stays well-formed and a success records at most one entry per module. `SnapshotLoopDone`, `LoopCounts` and `SnapshotLoopAppend` state what it records and leaves |
| Snapshot.SnapshotLoopDone | src/nshsnap/_snapshot.py:99-133 | on success, exactly the modules `find_spec` found are recorded, in order and each at its place below the snapshot directory. No lookup raised, and under `raise` none was missing. Every found module's parent packages exist. Nothing is removed |
| Snapshot.LoopCounts | src/nshsnap/_snapshot.py:99-133 | at most one record per requested module; under `raise` a successful loop records every requested module, in order |
| Snapshot.RaiseStopsAtMissing | src/nshsnap/_snapshot.py:101-105 | under `raise` the first missing module ends the loop with `ValueError`, keeping what was copied before |
| Snapshot.WarnSkipsMissing | src/nshsnap/_snapshot.py:106-108 | under `warn` a missing module is as if absent from the list |
| Snapshot.SnapshotModules | src/nshsnap/_snapshot.py:79-135 | succeeds exactly when the loop does, with the loop's filesystem. It reports the absolute snapshot directory and the requested module list as given. On success no lookup raised, under `raise` every module was found, and every found module's parent packages exist |
| Snapshot.MetaFiles | src/nshsnap/_snapshot.py:165-187 | on success `pip list` worked, and `.nshsnapmeta` is a directory holding the configuration JSON and the metadata JSON made from the configuration and the installed packages. `requirements.txt` holds the `pip freeze` output whenever there is one and no directory sat at that name. Nothing is removed, and nothing outside `.nshsnapmeta` changes |
| Snapshot.MetaFilesSucceed | src/nshsnap/_snapshot.py:165-187 | the metadata steps succeed exactly when `.nshsnapmeta` can be made, neither `config.json` nor `meta.json` is a directory, and `pip list` works with every entry valid |
| Snapshot.WriteConfig | src/nshsnap/_snapshot.py:169-187 | once the metadata directory exists, a successful run leaves the configuration, the requirements listing and the metadata all in place, as `MetaFiles` states, and `pip list` worked |
| Snapshot.WriteConfigSucceeds | src/nshsnap/_snapshot.py:169-187 | once the metadata directory exists, the rest succeeds exactly when neither JSON file is a directory and `pip list` works. When only `pip list` fails, its error propagates with `config.json` and the requirements listing already written |
| Snapshot.WriteMeta | src/nshsnap/_snapshot.py:172-187 | with `config.json` written, `config.json` stays and `requirements.txt` holds the `pip freeze` output when there is one, a failing freeze or write being swallowed. A successful run had a working `pip list` and adds `meta.json` made from the configuration and the installed packages |
| Snapshot.WriteMetaSucceeds | src/nshsnap/_snapshot.py:172-187 | a failing `pip list`, called while the metadata is created and outside the `try`, raises its error. The step succeeds exactly when `pip list` works and `meta.json` is not a directory |
| Snapshot.MetaJsonWritten | src/nshsnap/_snapshot.py:180-187 | the requirements step, which changes at most `requirements.txt`, and the `meta.json` step together keep the configuration and leave the whole metadata in place |
| Snapshot.SaveFreeze | src/nshsnap/_snapshot.py:172-183 | a failing `pip freeze` changes nothing and is swallowed; otherwise only `requirements.txt` changes, holding the frozen list when writable |
| Snapshot.WriteInDir | src/nshsnap/_util.py:47 | writing a file inside a directory succeeds exactly when no directory sits at that name, and touches nothing outside |
| Snapshot.Scripts | src/nshsnap/_snapshot.py:189-192 | on success `.bin` is a directory holding the activation and the execution scripts generated for the snapshot directory. Nothing outside `.bin` changes, and nothing is removed |
| Snapshot.ScriptsSucceed | src/nshsnap/_snapshot.py:189-192 | the scripts step succeeds exactly when `.bin` can be made and neither script's name is taken by a directory |
| Snapshot.WriteScripts | src/nshsnap/_util.py:71-76 | inside an existing `.bin`, a success leaves both scripts written with their generated text; nothing outside `.bin` changes and nothing is removed |
| Snapshot.WriteScriptsSucceed | src/nshsnap/_util.py:71-76 | inside an existing `.bin`, both scripts are written exactly when neither name is taken by a directory |
| Snapshot.SnapshotMeta | src/nshsnap/_snapshot.py:165-192 | an error in the metadata files propagates unchanged. On success the configuration, the requirements listing (as `MetaFiles` states), the metadata and both scripts are all in place |
| Snapshot.SnapshotMetaSucceeds | src/nshsnap/_snapshot.py:165-192 | `_snapshot_meta` succeeds exactly when every metadata step and both scripts can be done in the starting tree |
| Snapshot.Prepare | src/nshsnap/_snapshot.py:201-202 | a failure to make the git-ignored directory stops everything with no effects; otherwise the metadata step runs on the directory it made. On success the directory, its `.gitignore`, the metadata files and both scripts exist |
| Snapshot.PrepareSucceeds | src/nshsnap/_snapshot.py:201-202 | git-ignoring the directory and writing the metadata succeed exactly when no file lies on the way to the directory, nothing is in the way of the layout inside it, and `pip list` works |
| Snapshot.TakeSnapshot | src/nshsnap/_snapshot.py:195-203 | a missing `git` or `rsync` is reported first and changes nothing. A snapshot reports exactly the resolved modules and the absolute snapshot directory. That directory holds its `.gitignore`, the metadata files and both scripts. No lookup raised, under `raise` every module was found, and every found module's parent packages exist. Nothing is removed |
| Snapshot.SnapshotInto | src/nshsnap/_snapshot.py:199-203 | once the directory is resolved, a success reports the resolved modules and the absolute directory, leaves the layout in place, and made the parent packages of every found module. Nothing is removed |
| Snapshot.SnapshotIntoSteps | src/nshsnap/_snapshot.py:199-203 | once the directory is resolved, the rest succeeds exactly when the modules resolve, the preparation works and the module loop succeeds |
| Snapshot.TakeSnapshotSteps | src/nshsnap/_snapshot.py:195-203 | a snapshot succeeds exactly when both tools are there, the directory resolves to its target and the steps after that succeed |
| Snapshot.TakeSnapshotNeeds | src/nshsnap/_snapshot.py:195-203 | a successful snapshot had both tools, a module list, no file on the way to its directory, nothing in the way of the layout, and a working `pip list` |
| Snapshot.TakeSnapshotSucceeds | src/nshsnap/_snapshot.py:195-203 | when `git` and `rsync` work and the modules are top-level ones located outside the snapshot directory, the conditions `TakeSnapshotNeeds` lists together with every lookup letting its module through make the snapshot succeed |
| Snapshot.ResolvedDir | src/nshsnap/_config.py:96-99 | a configured directory always resolves; the default one resolves exactly when no file lies on the way to it. The target is returned, nothing is removed, only the way and the `.gitignore` are added, and neither the clear way nor the layout inside changes |
| Snapshot.DefaultDirResolved | src/nshsnap/_config.py:29-33 | once made, the default directory leaves the way to it clear, the layout inside it as it was, and adds only the way and its `.gitignore` |
| Snapshot.LaidOutKept | src/nshsnap/_snapshot.py:201-203 | copying the modules after the metadata removes nothing, so the directory, its `.gitignore`, the metadata files and the scripts survive it |
| Snapshot.DirectoryBeforeModules | src/nshsnap/_snapshot.py:198-199 | the snapshot directory is resolved (and a default one made) before module resolution can fail |
| Snapshot.MetadataBeforeModules | src/nshsnap/_snapshot.py:201-203 | the metadata is written before the first module lookup can raise |
| Snapshot.TakeSnapshotOrDefault | src/nshsnap/_snapshot.py:206-213 | no configuration means the default configuration |
| ResolveModules.LeafModule | src/nshsnap/_resolve_modules.py:14-24 | the first dotted segment of the module name, or nothing exactly when builtins are ignored and that segment is a standard module |
| ResolveModules.FilterContainerDeep | src/nshsnap/_resolve_modules.py:50-66 | `deep` always looks inside containers and `shallow` never does. `deep-builtin` looks inside exactly when the container's class is from a standard module |
| ResolveModules.AttrModules | src/nshsnap/_resolve_modules.py:149-151 | a value without `__module__` contributes nothing. One with it contributes at most its first dotted segment, and does so exactly unless builtins are ignored and that segment is standard |
| ResolveModules.ClassOf | src/nshsnap/_resolve_modules.py:155-163 | `type(v)`: a class's class is `type`, defined in `builtins`; any other value's class is its own type |
| ResolveModules.TypeAfter | src/nshsnap/_resolve_modules.py:123-163 | the class resolved last differs from the value's own class only for a non-empty mapping whose items are visited, and is then the class of the last mapped value |
| ResolveModules.ResolveType | src/nshsnap/_resolve_modules.py:27-47 | A cached module answers from the cache without change. Otherwise the answer is recorded under the module's name and includes the module's own leaf. Below `deep` the answer is exactly that leaf. Each answer is a set of leaf names and the cache only grows |
| ResolveModules.ResolveBases | src/nshsnap/_resolve_modules.py:42-44 | the loop over `__bases__` under `deep` only adds modules and keeps every existing memo entry unchanged. When the memo holds each module's leaf and only leaf names, and so do the modules collected so far, the memo and the result still do. `BasesCollected` states that every remaining base's leaf is added |
| ResolveModules.DeepMissAddsBases | src/nshsnap/_resolve_modules.py:38-47 | under `deep`, a class missing from the memo collects the leaf module of every direct base (the lemma is stated for any base index), besides its own |
| ResolveModules.BasesCollected | src/nshsnap/_resolve_modules.py:42-44 | the loop over the bases adds the leaf module of every base from the current one on |
| ResolveModules.ResolveValue | src/nshsnap/_resolve_modules.py:69-165 | A class value resolves as its type. For any other value, the class resolved last (`TypeAfter`) contributes its leaf, and an object's `__module__` is included. Results are leaf names and the cache only grows |
| ResolveModules.ValueCollected | src/nshsnap/_resolve_modules.py:69-165 | whatever a well-formed memo holds, a value's result includes its leaf reference: the contents of every container entered, every key and value, the `__module__` attributes and the class resolved last |
| ResolveModules.ValueLeafOnly | src/nshsnap/_resolve_modules.py:27-165 | starting from a memo of leaves, any call except a class under `deep` returns exactly its leaf reference and stores leaves only |
| ResolveModules.MappingCollectsEntries | src/nshsnap/_resolve_modules.py:123-138 | a mapping whose items are visited contributes every key and every value, each resolved at `deep-builtin` |
| ResolveModules.CollectionCollectsItems | src/nshsnap/_resolve_modules.py:140-148 | a collection whose elements are visited contributes every element, resolved at `deep-builtin` |
| ResolveModules.Contents | src/nshsnap/_resolve_modules.py:120-153 | an object, or a container the depth filter keeps closed, contributes exactly its `__module__` leaf without touching the cache; an entered container's results are leaf names |
| ResolveModules.ResolveEntries | src/nshsnap/_resolve_modules.py:123-138 | the loop over a mapping's items only adds to what was collected, grows the cache and yields leaf names |
| ResolveModules.ResolveItems | src/nshsnap/_resolve_modules.py:140-148 | the loop over a collection's items only adds to what was collected, grows the cache and yields leaf names |
| ResolveModules.ResolveParentModules | src/nshsnap/_resolve_modules.py:168-193 | the list holds each parent module once, never `__main__`, only leaf names, and no standard modules when builtins are ignored. It includes every value's leaf reference; below `deep` it is exactly their union |
| ResolveModules.ParentModulesFrom | src/nshsnap/_resolve_modules.py:176-191 | the loop only adds, never adds `__main__`, yields leaf names, and includes the whole resolved set of the value at hand, `__main__` removed |
| ResolveModules.FromCollects | src/nshsnap/_resolve_modules.py:176-191 | from any well-formed memo, each remaining value's leaf reference, `__main__` removed, ends up in the result |
| ResolveModules.ParentModulesCollect | src/nshsnap/_resolve_modules.py:168-193 | every value's leaf reference, `__main__` removed, is listed |
| ResolveModules.ParentModulesLeafOnly | src/nshsnap/_resolve_modules.py:27-193 | unless a class is resolved under `deep`, the result is exactly the union of the values' leaf references |
| ResolveModules.AsWrittenOrderFreeBelowDeep | src/nshsnap/_resolve_modules.py:33-46 | as written, the order and repetition of the values matter only under `deep` |
| ResolveModules.ParentModulesCoverOwnModules | src/nshsnap/_resolve_modules.py:155-191 | every value's own class module (or, after a mapping walked in depth, the last value's class) is among the parent modules unless it is `__main__` |
| ResolveModules.OwnModuleResolved | src/nshsnap/_resolve_modules.py:155-163 | resolving a value always includes the leaf of the class looked up after its contents |
| ResolveModules.ShallowSkipsContents | src/nshsnap/_resolve_modules.py:140-148 | with `shallow` a collection's items make no difference |
| ResolveModules.NestedDepthIsDeepBuiltin | src/nshsnap/_resolve_modules.py:123-148 | for a builtin container, `deep` and `deep-builtin` agree, because nested values use the default depth |
| ResolveModules.ParentModulesOne | src/nshsnap/_resolve_modules.py:176-191 | a single value gives its own modules without `__main__` |
| ResolveModules.ParentModulesTwo | src/nshsnap/_resolve_modules.py:174-191 | the second value is resolved with the cache the first one left |
| ResolveModules.LeafOnlyExample | src/nshsnap/_resolve_modules.py:14-24 | a class in `pkg.sub` and its instance both give `{pkg}` |
| ResolveModules.LeafOfPlain | src/nshsnap/_resolve_modules.py:14-24 | an undotted module name is its own leaf, or nothing when it is standard |
| ResolveModules.PrimitiveExample | src/nshsnap/_resolve_modules.py:109-119 | a primitive value gives nothing when builtins are ignored |
| ResolveModules.PkgClassDeep | src/nshsnap/_resolve_modules.py:27-47 | a class of `pkg` with a base from `lib` resolves under `deep` to `{pkg, lib}` and fills the cache for all three modules |
| ResolveModules.ClassThenInstance | src/nshsnap/_resolve_modules.py:27-47 | under `deep`, a class of `pkg` with a base from `lib` followed by its instance gives `{pkg, lib}` |
| ResolveModules.InstanceThenClass | src/nshsnap/_resolve_modules.py:33-46 | the instance first fills the memo for `pkg` with `{pkg}` at `deep-builtin`, so the class then gives only `{pkg}` |
| ResolveModules.MemoMakesResultOrderDependent | src/nshsnap/_resolve_modules.py:33-46 | the same two values in the two orders give different parent modules (as written) |
| ResolveModules.MappingLosesOwnClass | src/nshsnap/_resolve_modules.py:123-163 | a user mapping of `pkg` holding one builtin entry gives no parent module under `deep` as written, and `{pkg}` once the mapping's own class is resolved |
| ResolveModules.MappingAsWritten | src/nshsnap/_resolve_modules.py:123-163 | as written, a user mapping of any module holding one builtin entry gives no parent module under `deep` |
| ResolveModules.MappingCorrected | src/nshsnap/_resolve_modules.py:155-163 | the corrected resolution gives the mapping's own package for the same value |
| ResolveModules.ParentModulesFixed | src/nshsnap/_resolve_modules.py:168-193 | the corrected resolution equals the cache-free reference union and never holds `__main__` |
| ResolveModules.TypeFixed | src/nshsnap/_resolve_modules.py:27-47 | with a cache keyed by the type itself and holding correct answers, a type resolves to its reference modules |
| ResolveModules.ValueFixed | src/nshsnap/_resolve_modules.py:69-165 | with such a cache, a value resolves to its reference modules (its own class after its contents) and the cache stays correct |
| ResolveModules.FixedIsOrderFree | src/nshsnap/_resolve_modules.py:168-193 | the corrected result depends only on the set of values, not their order or repetition |
| ResolveModules.PkgRefs | src/nshsnap/_resolve_modules.py:27-47 | uncached, the class gives `{pkg, lib}` under `deep` and its instance `{pkg}` |
| ResolveModules.ParentModulesFixedFrom | src/nshsnap/_resolve_modules.py:176-191 | the corrected loop adds exactly the reference modules of the remaining values, without `__main__` |
| ResolveModules.FixedExample | src/nshsnap/_resolve_modules.py:33-46 | the corrected resolution gives `{pkg, lib}` for both orders of the order-dependence example |
| ResolveModules.FixedCoversOwnClass | src/nshsnap/_resolve_modules.py:155-163 | in the corrected resolution every non-class value's own class module is among the parents unless it is `__main__` |
| DumpFiles.FindParentGitignores | scripts/dump_files.py:10-18 | the `.gitignore` files of the absolute directory and its ancestors (root excluded), outermost first |
| DumpFiles.ParentGitignoresAreFiles | scripts/dump_files.py:12-16 | every returned path is an existing absolute `.gitignore` inside an ancestor of the directory |
| DumpFiles.ParentGitignoresOrdered | scripts/dump_files.py:18 | outer `.gitignore` files come before inner ones |
| DumpFiles.ParentGitignoresComplete | scripts/dump_files.py:13-16 | every ancestor's `.gitignore` that is a file is returned |
| DumpFiles.ShouldIgnore | scripts/dump_files.py:21-22 | a path is ignored exactly when one of the matchers ignores it |
| DumpFiles.ShouldIgnoreBySet | scripts/dump_files.py:54-58 | only the set of matchers matters, so the duplicated root `.gitignore` changes nothing |
| DumpFiles.Suffix | scripts/dump_files.py:68 | `Path.suffix`: empty exactly when the name is empty, ends with a dot or has no dot after its first character. Otherwise it is a proper tail of the name that starts with its only dot |
| DumpFiles.Accumulated | scripts/dump_files.py:51-60 | the matchers in force in a directory include the parent ones, the inherited ones and its own `.gitignore` when it has one; without gitignore handling they are the inherited ones |
| DumpFiles.GitignoreMustBeFile | scripts/dump_files.py:52-53 | a directory's own `.gitignore` counts exactly when a file entry of that name is listed; a directory of that name does not |
| DumpFiles.Classify | scripts/dump_files.py:62-85 | an entry is taken only when it is a file that passes the filters, descended only when it is a directory, and neither when an active matcher ignores it |
| DumpFiles.KeepsFileFilters | scripts/dump_files.py:68-81 | without filters every file is kept. An exclude match always drops a file. A kept file matches an include pattern when there are any, and has the wanted suffix when an extension is given |
| DumpFiles.KeepsFile | scripts/dump_files.py:68-81 | a file's name passes the extension, include and exclude filters in turn; `KeepsFileFilters` states what that means |
| DumpFiles.FindFilesBfs | scripts/dump_files.py:25-87 | it raises exactly when the root is not a directory and not named `.git`. Otherwise it returns, sorted, exactly what the recursive reference walk collects |
| DumpFiles.ScanDirectory | scripts/dump_files.py:62-85 | scanning a directory moves its reference contribution into the result and the queue, and the queue's size bound decreases |
| DumpFiles.ScanEntry | scripts/dump_files.py:63-85 | one entry either joins the result, is queued with the current matchers, or is dropped, as the reference walk does |
| DumpFiles.VisitAllSnoc | scripts/dump_files.py:43-85 | queuing a directory at the back adds its contribution, so breadth-first and depth-first orders collect the same files |
| DumpFiles.SortedAsReference | scripts/dump_files.py:87 | sorting makes the visiting order irrelevant |
| DumpFiles.VisitPasses | scripts/dump_files.py:51-83 | every collected file passes the name filters and no matcher in force ignores it |
| DumpFiles.VisitFromPasses | scripts/dump_files.py:62-85 | every file collected from a directory's entries passes the name filters and no matcher in force ignores it |
| DumpFiles.VisitBelow | scripts/dump_files.py:46-85 | every collected file lies below the walked directory, never inside `.git` |
| DumpFiles.VisitFromBelow | scripts/dump_files.py:62-85 | every file collected from a directory's entries lies below that directory |
| DumpFiles.ReturnedFiles | scripts/dump_files.py:25-87 | every returned file has the wanted suffix, matches an include pattern when there are any, and matches no exclude pattern. No ancestor's or root `.gitignore` ignores it. It lies below the root and outside `.git` |

## Left out

- Logging and warning output: the `warn` policies only skip the item here.
- Operating-system errors are not modelled. Permission, read-only, disk-full and concurrent-change errors from `mkdir`, `touch`, `write_text` and `iterdir` are left out. Every "succeeds exactly when" and "raises exactly when" above holds for a file system that fails only on the conditions modelled: a file or directory in the way, or a missing parent.
- `_meta.py`, `SnapshotMetadata.create` and `model_dump_json`: the JSON text of `config.json` is an opaque function of the configuration. That of `meta.json` is an opaque function of the configuration and the installed packages `pip list` reported; the clock reading `datetime.now()` is folded into that function. A failing `pip list` is modelled: its error propagates out of `_snapshot_meta`.
- The text of the activation and execution scripts, and their `chmod`: the scripts are opaque functions of the snapshot directory.
- `git_references`: it is declared in the configuration but no code reads it.
- The command-line front end (`cli.py`, `run_cli.py`), `configs`/`CreateSnapshotConfig` validation and the dump script's `main`/`read_file_content`: argument parsing and printing.
- `subprocess`, `find_spec`, `importlib.metadata`, `rsync`, `git ls-files`, `pip list`/`pip freeze`, `fnmatch` and the gitignore parser are parameters. The model states what the core does with their answers, not what they compute.
- Snapshot.Copy: `rsync` is trusted to write only below the destination (the `Sane` assumption). A failed `rsync` is modelled as having changed nothing, though a real one may leave partial copies.
- Snapshot.TakeSnapshot: `_ensure_supported` is two flags, `hasGit` and `hasRsync`. A missing tool is the exception `ToolMissing` rather than `FileNotFoundError` with a message.
- Snapshot.SaveFreeze: `except BaseException` also catches interrupts; only a failed `pip freeze` or a failed write is modelled as caught.
- UTF-8 decoding of command output and of `top_level.txt` is left out: text is a sequence of characters from the start.
- Text.Lower: `str.lower()` is modelled for ASCII letters only; other scripts' case mappings are left out.
- DeepMissAddsBases: under `deep` the as-written result is only bounded from below. A base's own bases can be lost when the memo already holds that base's module, so no exact characterisation of the as-written `deep` result is stated. The corrected resolver's exact result is `ParentModulesFixed`.
- MakePackagesSucceeds: a parent part named `__init__.py` is excluded; the file made one step earlier would then be in the way, and the model does not characterise that case.
- TopLevelLoop: the exact success condition is stated only for top-level modules located outside the snapshot directory. A dotted module or a location inside the directory makes success depend on what earlier copies left, which the model does not characterise.
- TakeSnapshotSucceeds: a sufficient condition only, under the same restriction as `TopLevelLoop` and with `ToolsWork` (every `git ls-files` and `rsync` call succeeds) assumed; `TakeSnapshotNeeds` gives the necessary conditions without those assumptions.
- TakeSnapshot: after the copies, the metadata files and scripts are only stated to exist (`LaidOut`), not to keep their contents. A module's `rsync` may overwrite entries below the snapshot directory, and the model does not exclude that.
- SnapshotLoopDone: the loop states which modules were recorded and that their parent packages exist. The copied contents are what `rsync` returned for each module (`MoveFound`), with no model of a tree's contents.
- Text.Strip: whitespace is the fixed table of characters `str.isspace()` accepts in the Basic Multilingual Plane, not the full Unicode database.
- Paths are not normalised: `.` and `..` are ordinary parts, and symbolic links (and loops through them) are not modelled; `Path.is_file`/`is_dir` are read off the tree.
- Names containing `/` are not split into several parts.
- ResolveModules.ResolveParentModules: the result list's order comes from `list(set)` and is unspecified in Python; the model proves a duplicate-free list whose elements are the resolved set, not any particular order.
- ResolveModules.ClassOf: every class's metaclass is taken to be `builtins.type`; custom metaclasses are not modelled.
- ResolveModules.LeafModule: the standard-library name set is a parameter. `functools.cache` only memoises a pure function and is not modelled.
- ResolveModules.ResolveValue: the code takes the first dotted segment of a module name although its docstring speaks of resolving the defining module; the model follows the code.
- The snapshot id (`uuid7str`) and `Path.home()` are parameters.
- DumpFiles.FindFilesBfs: a root that is not a directory raises `NotADirectoryError` in the model whether it is a file or missing altogether. Python raises `FileNotFoundError` for a missing root. An unreadable subdirectory, whose `iterdir` raises `PermissionError` and ends the walk in Python, is read like any other here.

## Findings

| source | as written | input that shows it | evidently intended | confidence | as-written member | corrected member |
|---|---|---|---|---|---|---|
| src/nshsnap/_resolve_modules.py:33-46 | the memo is keyed by `type_.__module__` and stores what was resolved at whatever depth and for whatever type came first | with `deep`, a class `C` of `pkg` with a base from `lib`, resolved as the class then as an instance, gives `{pkg, lib}`; in the other order the instance fills the memo for `pkg` at `deep-builtin` with `{pkg}` and the class then gives `{pkg}` | the parent modules of a set of values do not depend on their order | medium, not executed | ResolveModules.MemoMakesResultOrderDependent | ResolveModules.ParentModulesFixed |
| src/nshsnap/_resolve_modules.py:123-163 | `for key, value in value.items()` rebinds `value`, so `type(value)` afterwards is the class of the last mapped value, not of the mapping | with `deep`, a user `Mapping` subclass defined in `pkg` holding `{"k": 1}` gives no parent module at all | the mapping's own class (and so `pkg`) is resolved, as for every other non-class value | medium, not executed | ResolveModules.MappingAsWritten | ResolveModules.ParentModulesFixed |
