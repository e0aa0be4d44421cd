/** Taking a snapshot (`src/nshsnap/_snapshot.py`): each module's package
    directory copied below the snapshot directory, its parent packages
    made importable, the metadata written next to it. */
module Snapshot {
  import opened Wrappers
  import opened Text
  import opened Paths
  import opened Exceptions
  import opened FileSystem
  import opened Importlib
  import opened Util
  import opened Config
  import opened PipDeps

  /** The command-line tools and the text the core writes but does not
      compute itself (JSON dumps, shell scripts). */
  datatype Tools = Tools(
    hasGit: bool,
    hasRsync: bool,
    /** `git -C source ls-files --exclude-standard -oi --directory`, decoded; `None` on failure */
    lsIgnored: Path -> Option<string>,
    /** `rsync -a` with the given excludes; `None` on failure */
    rsync: (FS, Path, Path, seq<string>) -> Option<FS>,
    /** `pip freeze --local`; `None` on failure */
    pipFreeze: Option<string>,
    configJson: SnapshotConfig -> string,
    /** `SnapshotMetadata.create(config).model_dump_json()` for the installed
        packages; the clock reading it includes is folded in */
    metaJson: (SnapshotConfig, seq<Dependency>) -> string,
    activateScript: Path -> string,
    executeScript: Path -> string)

  /** `k` lies strictly inside the directory `dir`. */
  predicate Below(k: Key, dir: Key)
  {
    |k| > |dir| && k[..|dir|] == dir
  }

  /** What `rsync -a source destination` may do: keep a tree and the
      working directory, add and change entries inside the destination
      only, and delete nothing. */
  ghost predicate CopyOk(before: FS, after: FS, dst: Key)
  {
    && WF(after)
    && after.cwd == before.cwd
    && (forall k :: k in before.nodes ==> k in after.nodes)
    && (forall k :: k in before.nodes && !Below(k, dst) ==> after.nodes[k] == before.nodes[k])
    && (forall k :: k in after.nodes && k !in before.nodes ==> Below(k, dst))
  }

  /** The copier behaves like `rsync` on trees. */
  ghost predicate Sane(tools: Tools)
  {
    forall fs, src, dst, ex :: WF(fs) && tools.rsync(fs, src, dst, ex).Some? ==>
      CopyOk(fs, tools.rsync(fs, src, dst, ex).value, KeyOf(fs, dst))
  }

  const GitDir: string := ".git"

  /** The excludes handed to `rsync`: `.git`, then every line git listed. */
  function CopyExcludes(listing: string): (r: seq<string>)
    ensures |r| >= 1 && r[0] == GitDir
    ensures r[1..] == SplitLines(listing)
  {
    [GitDir] + SplitLines(listing)
  }

  /** Exactly the paths git printed, in its order, follow `.git`. */
  lemma CopyExcludesOfListing(paths: seq<string>)
    requires forall j, k :: 0 <= j < |paths| && 0 <= k < |paths[j]| ==> !IsLineBreak(paths[j][k])
    ensures CopyExcludes(Terminated(paths)) == [GitDir] + paths
  {
    SplitLinesTerminated(paths);
  }

  /** `_copy`: list what git ignores in `source`, then `rsync` it into
      `location` without `.git` and without those paths. */
  function Copy(fs: FS, source: Path, location: Path, tools: Tools): (r: Result<FS, Exc>)
    requires WF(fs) && Sane(tools)
    ensures tools.lsIgnored(source).None? ==> r == Failure(CalledProcessError("git"))
    ensures tools.lsIgnored(source).Some? ==>
      r == match tools.rsync(fs, source, location, CopyExcludes(tools.lsIgnored(source).value))
           case None => Failure(CalledProcessError("rsync"))
           case Some(fs') => Success(fs')
    ensures r.Success? ==> CopyOk(fs, r.value, KeyOf(fs, location))
    ensures r.Success? ==>
      && tools.lsIgnored(source).Some?
      && tools.rsync(fs, source, location, CopyExcludes(tools.lsIgnored(source).value)) == Some(r.value)
  {
    match tools.lsIgnored(source)
    case None => Failure(CalledProcessError("git"))
    case Some(listing) =>
      match tools.rsync(fs, source, location, CopyExcludes(listing))
      case None => Failure(CalledProcessError("rsync"))
      case Some(fs') => Success(fs')
  }

  datatype SnapshotInfo = SnapshotInfo(snapshotDir: Path, modules: seq<string>)

  const MetaDirName: string := ".nshsnapmeta"
  const InitFile: string := "__init__.py"

  /** `SnapshotInfo.metadata_dir`. */
  function MetadataDir(info: SnapshotInfo): (r: Path)
    ensures r.isAbs == info.snapshotDir.isAbs
    ensures r.parts == info.snapshotDir.parts + [MetaDirName]
  {
    Child(info.snapshotDir, MetaDirName)
  }

  /** The parent-package loop of `_snapshot_modules`: each part a directory
      below the last, each holding an `__init__.py`; returns the innermost. */
  function MakePackages(fs: FS, dest: Path, parents: seq<string>): (r: Outcome<Path>)
    requires WF(fs)
    ensures WF(r.fs) && Grows(fs, r.fs)
    ensures forall k :: k in r.fs.nodes && k !in fs.nodes ==> r.fs.nodes[k] == Dir || r.fs.nodes[k] == File("")
    ensures r.result.Success? ==> r.result.value == ChildAll(dest, parents)
    ensures r.result.Success? ==> forall i :: 0 < i <= |parents| ==>
      && IsDir(r.fs, ChildAll(dest, parents[..i]))
      && Exists(r.fs, Child(ChildAll(dest, parents[..i]), InitFile))
    decreases |parents|
  {
    if |parents| == 0 then Outcome(fs, Success(dest))
    else
      var d := Child(dest, parents[0]);
      match MakePackage(fs, d)
      case Failure(e) => Outcome(fs, Failure(e))
      case Success(fs2) =>
        var r := MakePackages(fs2, d, parents[1..]);
        PackagesKept(fs, fs2, r, dest, parents);
        r
  }

  /** One parent package: its directory, made along with any missing
      ancestors, holding an `__init__.py`, created empty when missing. */
  function MakePackage(fs: FS, d: Path): (r: Result<FS, Exc>)
    requires WF(fs)
    ensures r.Success? <==> NoFileOnWay(fs.nodes, KeyOf(fs, d))
    ensures r.Success? ==> WF(r.value) && Grows(fs, r.value) && IsDir(r.value, d) && Exists(r.value, Child(d, InitFile))
    ensures r.Success? ==> forall k :: k in r.value.nodes && k !in fs.nodes ==>
      || (r.value.nodes[k] == Dir && |k| <= |KeyOf(fs, d)| && k == KeyOf(fs, d)[..|k|])
      || (k == KeyOf(fs, d) + [InitFile] && r.value.nodes[k] == File(""))
  {
    match MkDirs(fs, d)
    case Failure(e) => Failure(e)
    case Success(fs1) =>
      PackageMade(fs, d, fs1);
      Touch(fs1, Child(d, InitFile))
  }

  /** What the two steps of `MakePackage` add: touching `__init__.py` in
      the directory just made works, and adds at most that empty file. */
  lemma PackageMade(fs: FS, d: Path, fs1: FS)
    requires WF(fs) && MkDirs(fs, d) == Success(fs1)
    ensures Touch(fs1, Child(d, InitFile)).Success?
    ensures var fs2 := Touch(fs1, Child(d, InitFile)).value;
      && WF(fs2) && Grows(fs, fs2) && IsDir(fs2, d) && Exists(fs2, Child(d, InitFile))
      && forall k :: k in fs2.nodes && k !in fs.nodes ==>
        || (fs2.nodes[k] == Dir && |k| <= |KeyOf(fs, d)| && k == KeyOf(fs, d)[..|k|])
        || (k == KeyOf(fs, d) + [InitFile] && fs2.nodes[k] == File(""))
  {
    var kd := KeyOf(fs, d);
    InitKey(fs1, d);
    assert KeyOf(fs1, d) == kd;
    var fs2 := Touch(fs1, Child(d, InitFile)).value;
    KeptAt(fs1, fs2, kd + [InitFile], kd);
    NewNodesStep(fs, fs1, fs2, kd, kd + [InitFile]);
  }

  /** Making the directories up to `kd` and then touching one file in the
      last of them adds only those directories and that file, empty. */
  lemma NewNodesStep(fs: FS, fs1: FS, fs2: FS, kd: Key, at: Key)
    requires forall x :: x in fs1.nodes && x !in fs.nodes ==> |x| <= |kd| && x == kd[..|x|] && fs1.nodes[x] == Dir
    requires OnlyAt(fs1, fs2, at) && at == kd + [InitFile]
    requires at in fs2.nodes && (at !in fs1.nodes ==> fs2.nodes[at] == File(""))
    requires at in fs1.nodes ==> fs2.nodes[at] == fs1.nodes[at]
    ensures forall k :: k in fs2.nodes && k !in fs.nodes ==>
      || (fs2.nodes[k] == Dir && |k| <= |kd| && k == kd[..|k|])
      || (k == kd + [InitFile] && fs2.nodes[k] == File(""))
  {
  }

  lemma InitKey(fs: FS, d: Path)
    ensures KeyOf(fs, Child(d, InitFile)) == KeyOf(fs, d) + [InitFile]
    ensures Parent(KeyOf(fs, Child(d, InitFile))) == KeyOf(fs, d)
  {
    ChildParent(fs, d, InitFile);
  }

  lemma PackagesKept(fs: FS, fs2: FS, r: Outcome<Path>, dest: Path, parents: seq<string>)
    requires |parents| > 0 && WF(fs2) && Grows(fs2, r.fs)
    requires IsDir(fs2, Child(dest, parents[0])) && Exists(fs2, Child(Child(dest, parents[0]), InitFile))
    requires r.result.Success? ==> forall i :: 0 < i <= |parents[1..]| ==>
      && IsDir(r.fs, ChildAll(Child(dest, parents[0]), parents[1..][..i]))
      && Exists(r.fs, Child(ChildAll(Child(dest, parents[0]), parents[1..][..i]), InitFile))
    ensures r.result.Success? ==> forall i :: 0 < i <= |parents| ==>
      && IsDir(r.fs, ChildAll(dest, parents[..i]))
      && Exists(r.fs, Child(ChildAll(dest, parents[..i]), InitFile))
  {
    if r.result.Success? {
      forall i | 0 < i <= |parents|
        ensures IsDir(r.fs, ChildAll(dest, parents[..i])) && Exists(r.fs, Child(ChildAll(dest, parents[..i]), InitFile))
      {
        assert parents[..i][0] == parents[0] && parents[..i][1..] == parents[1..][..i - 1];
        if i == 1 {
          assert ChildAll(dest, parents[..i]) == Child(dest, parents[0]);
        }
      }
    }
  }

  /** A file on the way to the innermost package directory makes the loop
      fail: a step that succeeds leaves that file where it was. */
  lemma {:induction false} MakePackagesFails(fs: FS, dest: Path, parents: seq<string>)
    requires WF(fs) && |parents| > 0
    requires !NoFileOnWay(fs.nodes, KeyOf(fs, ChildAll(dest, parents)))
    ensures MakePackages(fs, dest, parents).result.Failure?
    decreases |parents|
  {
    var d := Child(dest, parents[0]);
    var k := KeyOf(fs, ChildAll(dest, parents));
    ChildAllKey(fs, d, parents[1..]);
    match MakePackage(fs, d)
    case Failure(_) =>
    case Success(fs2) =>
      var j :| 0 <= j <= |k| && k[..j] in fs.nodes && fs.nodes[k[..j]] != Dir;
      assert !NoFileOnWay(fs2.nodes, k) by {
        assert k[..j] in fs2.nodes && fs2.nodes[k[..j]] != Dir;
      }
      if |parents| == 1 {
        assert false;
      } else {
        assert KeyOf(fs2, ChildAll(d, parents[1..])) == k;
        MakePackagesFails(fs2, d, parents[1..]);
      }
  }

  /** With no file on the way to the innermost package directory the loop
      succeeds, as long as no part is itself named `__init__.py` (the file
      made one step earlier would then be in the way). */
  lemma {:induction false} MakePackagesSucceeds(fs: FS, dest: Path, parents: seq<string>)
    requires WF(fs)
    requires forall i :: 0 <= i < |parents| ==> parents[i] != InitFile
    requires NoFileOnWay(fs.nodes, KeyOf(fs, ChildAll(dest, parents)))
    ensures MakePackages(fs, dest, parents).result.Success?
    decreases |parents|
  {
    if |parents| > 0 {
      var d := Child(dest, parents[0]);
      PackageStepClear(fs, dest, parents);
      var fs2 := MakePackage(fs, d).value;
      forall i | 0 <= i < |parents[1..]| ensures parents[1..][i] != InitFile {
        assert parents[1..][i] == parents[i + 1];
      }
      MakePackagesSucceeds(fs2, d, parents[1..]);
    }
  }

  /** The first package step succeeds and keeps the way to the innermost
      package directory clear. */
  lemma PackageStepClear(fs: FS, dest: Path, parents: seq<string>)
    requires WF(fs) && |parents| > 0
    requires forall i :: 0 <= i < |parents| ==> parents[i] != InitFile
    requires NoFileOnWay(fs.nodes, KeyOf(fs, ChildAll(dest, parents)))
    ensures MakePackage(fs, Child(dest, parents[0])).Success?
    ensures var fs2 := MakePackage(fs, Child(dest, parents[0])).value;
      NoFileOnWay(fs2.nodes, KeyOf(fs2, ChildAll(Child(dest, parents[0]), parents[1..])))
  {
    var d := Child(dest, parents[0]);
    var k := KeyOf(fs, ChildAll(dest, parents));
    var kd := KeyOf(fs, d);
    ChildAllKey(fs, d, parents[1..]);
    OnWayPrefix(fs.nodes, kd, k);
    var fs2 := MakePackage(fs, d).value;
    assert |k| > |kd| ==> k[..|kd| + 1] != kd + [InitFile] by {
      if |k| > |kd| {
        assert k[|kd|] == NonEmpty(parents[1..])[0] && NonEmpty(parents[1..])[0] in parents[1..];
        assert k[..|kd| + 1][|kd|] == k[|kd|];
      }
    }
    WayKept(fs, fs2, kd, k);
    assert KeyOf(fs2, ChildAll(d, parents[1..])) == k;
  }

  /** One package step keeps the way to a deeper directory clear, unless
      the `__init__.py` it made lies on that way. */
  lemma WayKept(fs: FS, fs2: FS, kd: Key, k: Key)
    requires NoFileOnWay(fs.nodes, k) && Grows(fs, fs2)
    requires forall x :: x in fs2.nodes && x !in fs.nodes ==> fs2.nodes[x] == Dir || x == kd + [InitFile]
    requires |k| > |kd| ==> k[..|kd| + 1] != kd + [InitFile]
    ensures NoFileOnWay(fs2.nodes, k)
  {
    forall j | 0 <= j <= |k| && k[..j] in fs2.nodes ensures fs2.nodes[k[..j]] == Dir {
    }
  }

  /** Where a path built a component at a time points. */
  lemma ChildAllKey(fs: FS, p: Path, names: seq<string>)
    ensures KeyOf(fs, ChildAll(p, names)) == KeyOf(fs, p) + NonEmpty(names)
  {
    ChildAllParts(p, names);
  }

  /** A module that was copied: where from, and where it is recorded to be. */
  datatype Moved = Moved(moduleName: string, location: Path, destination: Path)

  /** The parent packages of a dotted module name: every part but the last. */
  function ParentParts(name: string): (r: seq<string>)
    ensures forall i :: 0 <= i < |r| ==> '.' !in r[i]
    ensures |r| == 0 <==> '.' !in name
  {
    var parts := Split(name, '.');
    assert ('.' in name ==> |parts| >= 2) && ('.' !in name ==> parts == [name]) by {
      if '.' in name { DottedSplits(name); } else { UpToWhole(name, '.'); }
    }
    parts[..|parts| - 1]
  }

  /** The module's own name inside its innermost parent package. */
  function LastPart(name: string): (r: string)
    ensures '.' !in r
    ensures '.' !in name ==> r == name
  {
    var parts := Split(name, '.');
    assert '.' !in name ==> parts == [name] by {
      if '.' !in name { UpToWhole(name, '.'); }
    }
    parts[|parts| - 1]
  }

  /** The parent packages and the last part, joined with dots again, give
      the module name back. */
  lemma NameFromParts(name: string)
    ensures Join(ParentParts(name) + [LastPart(name)], '.') == name
  {
    SplitParts(name);
    JoinSplit(name, '.');
  }

  /** The parent packages of `name` below `dir`: each a directory holding
      an `__init__.py`. */
  ghost predicate PackagesMade(fs: FS, dir: Path, name: string)
  {
    forall i :: 0 < i <= |ParentParts(name)| ==>
      && IsDir(fs, ChildAll(dir, ParentParts(name)[..i]))
      && Exists(fs, Child(ChildAll(dir, ParentParts(name)[..i]), InitFile))
  }

  /** The packages stay importable through any later step that removes
      nothing from a tree: each `__init__.py` keeps its directory a directory. */
  lemma PackagesKeptBy(fs: FS, fs': FS, dir: Path, name: string)
    requires PackagesMade(fs, dir, name) && WF(fs') && Kept(fs, fs')
    ensures PackagesMade(fs', dir, name)
  {
    forall i | 0 < i <= |ParentParts(name)|
      ensures IsDir(fs', ChildAll(dir, ParentParts(name)[..i]))
    {
      InitKey(fs', ChildAll(dir, ParentParts(name)[..i]));
    }
  }

  /** One turn of the loop of `_snapshot_modules`: `None` for a module
      skipped under `Warn`. */
  function SnapshotModule(fs: FS, dir: Path, name: string, policy: Policy, findSpec: string -> SpecLookup, tools: Tools)
    : (r: Outcome<Option<Moved>>)
    requires WF(fs) && Sane(tools)
    ensures WF(r.fs) && Kept(fs, r.fs)
    ensures findSpec(name).Raised? ==> r == Outcome(fs, Failure(LookupRaised(name)))
    ensures findSpec(name).NotFound? ==>
      r == Outcome(fs, if policy == Raise then Failure(ValueError(name)) else Success(None))
    ensures findSpec(name).Found? && (|findSpec(name).locations| != 1 || !IsDir(fs, findSpec(name).locations[0])) ==>
      r == Outcome(fs, Failure(AssertionError(name)))
    ensures findSpec(name).Found? && |findSpec(name).locations| == 1 && IsDir(fs, findSpec(name).locations[0]) ==>
      r == MoveFound(fs, dir, name, findSpec(name).locations[0], tools)
    ensures r.result.Success? && r.result.value.None? ==> r.fs == fs
    ensures findSpec(name).Found? && r.result.Success? ==> r.result.value.Some?
    ensures r.result.Success? && r.result.value.Some? ==>
      && findSpec(name).Found? && findSpec(name).locations == [r.result.value.value.location]
      && r.result.value.value.moduleName == name
      && r.result.value.value.destination == Child(ChildAll(dir, ParentParts(name)), LastPart(name))
      && PackagesMade(r.fs, dir, name)
  {
    match findSpec(name)
    case Raised => Outcome(fs, Failure(LookupRaised(name)))
    case NotFound => Outcome(fs, if policy == Raise then Failure(ValueError(name)) else Success(None))
    case Found(locations) =>
      if |locations| != 1 || !IsDir(fs, locations[0]) then Outcome(fs, Failure(AssertionError(name)))
      else MoveFound(fs, dir, name, locations[0], tools)
  }

  /** A found module with one directory location: its parent packages are
      made below `dir`, then the directory is copied into the innermost one.
      A failure of either step ends the turn with the effects so far. */
  function MoveFound(fs: FS, dir: Path, name: string, location: Path, tools: Tools): (r: Outcome<Option<Moved>>)
    requires WF(fs) && Sane(tools)
    ensures WF(r.fs) && Kept(fs, r.fs)
    ensures var prep := MakePackages(fs, dir, ParentParts(name));
      && (prep.result.Failure? ==> r == Outcome(prep.fs, Failure(prep.result.error)))
      && (prep.result.Success? && Copy(prep.fs, location, prep.result.value, tools).Failure? ==>
            r == Outcome(prep.fs, Failure(Copy(prep.fs, location, prep.result.value, tools).error)))
      && (prep.result.Success? && Copy(prep.fs, location, prep.result.value, tools).Success? ==>
            r == Outcome(Copy(prep.fs, location, prep.result.value, tools).value,
                         Success(Some(Moved(name, location, Child(prep.result.value, LastPart(name)))))))
    ensures r.result.Success? ==>
      && r.result.value == Some(Moved(name, location, Child(ChildAll(dir, ParentParts(name)), LastPart(name))))
      && PackagesMade(r.fs, dir, name)
      && tools.lsIgnored(location).Some?
      && tools.rsync(MakePackages(fs, dir, ParentParts(name)).fs, location, ChildAll(dir, ParentParts(name)),
                     CopyExcludes(tools.lsIgnored(location).value)) == Some(r.fs)
  {
    var prep := MakePackages(fs, dir, ParentParts(name));
    match prep.result
    case Failure(e) => Outcome(prep.fs, Failure(e))
    case Success(dest) => CopyModule(prep.fs, dir, name, location, tools)
  }

  /** The copy half of a found module's turn, once its packages exist:
      the module lands below its parent packages, which stay in place. */
  function CopyModule(fs: FS, dir: Path, name: string, location: Path, tools: Tools): (r: Outcome<Option<Moved>>)
    requires WF(fs) && Sane(tools) && PackagesMade(fs, dir, name)
    ensures WF(r.fs) && Kept(fs, r.fs)
    ensures Copy(fs, location, ChildAll(dir, ParentParts(name)), tools).Failure? ==>
      r == Outcome(fs, Failure(Copy(fs, location, ChildAll(dir, ParentParts(name)), tools).error))
    ensures Copy(fs, location, ChildAll(dir, ParentParts(name)), tools).Success? ==>
      r == Outcome(Copy(fs, location, ChildAll(dir, ParentParts(name)), tools).value,
                   Success(Some(Moved(name, location, Child(ChildAll(dir, ParentParts(name)), LastPart(name))))))
    ensures r.result.Success? ==>
      && r.result.value == Some(Moved(name, location, Child(ChildAll(dir, ParentParts(name)), LastPart(name))))
      && PackagesMade(r.fs, dir, name)
      && tools.lsIgnored(location).Some?
      && tools.rsync(fs, location, ChildAll(dir, ParentParts(name)), CopyExcludes(tools.lsIgnored(location).value)) == Some(r.fs)
  {
    var dest := ChildAll(dir, ParentParts(name));
    match Copy(fs, location, dest, tools)
    case Failure(e) => Outcome(fs, Failure(e))
    case Success(fs') =>
      PackagesKeptBy(fs, fs', dir, name);
      Outcome(fs', Success(Some(Moved(name, location, Child(dest, LastPart(name))))))
  }

  /** Git lists the ignored files of any directory and `rsync` never fails. */
  ghost predicate ToolsWork(tools: Tools)
  {
    && (forall p :: tools.lsIgnored(p).Some?)
    && (forall fs, src, dst, ex :: tools.rsync(fs, src, dst, ex).Some?)
  }

  /** With working tools, a found module is moved exactly when its parent
      packages can be made: it has none, or nothing on the way to the
      innermost one is a file. */
  lemma MoveFoundSucceeds(fs: FS, dir: Path, name: string, location: Path, tools: Tools)
    requires WF(fs) && Sane(tools) && ToolsWork(tools)
    ensures MoveFound(fs, dir, name, location, tools).result.Success? <==>
      '.' !in name || NoFileOnWay(fs.nodes, KeyOf(fs, ChildAll(dir, ParentParts(name))))
  {
    var parents := ParentParts(name);
    var prep := MakePackages(fs, dir, parents);
    if '.' in name {
      if NoFileOnWay(fs.nodes, KeyOf(fs, ChildAll(dir, parents))) {
        forall i | 0 <= i < |parents| ensures parents[i] != InitFile {
          assert InitFile[8] == '.';
        }
        MakePackagesSucceeds(fs, dir, parents);
      } else {
        MakePackagesFails(fs, dir, parents);
      }
    } else {
      assert prep.result.Success?;
    }
    if prep.result.Success? {
      CopyWorks(prep.fs, location, prep.result.value, tools);
    }
  }

  /** With working tools a copy succeeds. */
  lemma CopyWorks(fs: FS, source: Path, location: Path, tools: Tools)
    requires WF(fs) && Sane(tools) && ToolsWork(tools)
    ensures Copy(fs, source, location, tools).Success?
  {
    assert tools.lsIgnored(source).Some?;
    assert tools.rsync(fs, source, location, CopyExcludes(tools.lsIgnored(source).value)).Some?;
  }

  /** A dotted name is its parent packages followed by its last part. */
  lemma SplitParts(name: string)
    ensures Split(name, '.') == ParentParts(name) + [LastPart(name)]
    ensures '.' in name ==> |ParentParts(name)| >= 1
  {
    LastOf(Split(name, '.'));
    if '.' in name {
      DottedSplits(name);
    }
  }

  lemma LastOf(s: seq<string>)
    requires |s| > 0
    ensures s[..|s| - 1] + [s[|s| - 1]] == s
  {
  }

  /** A name with a dot splits into at least two parts. */
  lemma DottedSplits(name: string)
    requires '.' in name
    ensures |Split(name, '.')| >= 2
  {
    var head := UpTo(name, '.');
    assert name[..|name|] == name;
    assert |head| < |name|;
    assert |Split(name[|head| + 1..], '.')| >= 1;
  }

  /** The destination of `a.b.c` is `dir/a/b/c`: below the innermost
      parent package (`dir/a/b`), which the copy is given. */
  lemma DottedDestination(fs: FS, dir: Path, name: string, policy: Policy, findSpec: string -> SpecLookup, tools: Tools)
    requires WF(fs) && Sane(tools)
    requires '.' in name
    requires SnapshotModule(fs, dir, name, policy, findSpec, tools).result.Success?
    requires SnapshotModule(fs, dir, name, policy, findSpec, tools).result.value.Some?
    ensures |ParentParts(name)| >= 1
    ensures SnapshotModule(fs, dir, name, policy, findSpec, tools).result.value.value.destination
         == ChildAll(dir, Split(name, '.'))
  {
    SplitParts(name);
    ChildAllSnoc(dir, ParentParts(name), LastPart(name));
  }

  lemma ChildAllSnoc(p: Path, names: seq<string>, last: string)
    ensures ChildAll(p, names + [last]) == Child(ChildAll(p, names), last)
  {
    ChildAllParts(p, names + [last]);
    ChildAllParts(p, names);
    NonEmptySnoc(names, last);
  }

  lemma {:induction false} NonEmptySnoc(names: seq<string>, last: string)
    ensures NonEmpty(names + [last]) == NonEmpty(names) + (if last == "" then [] else [last])
  {
    if |names| > 0 {
      assert (names + [last])[1..] == names[1..] + [last];
      NonEmptySnoc(names[1..], last);
    } else {
      assert names + [last] == [last];
    }
  }

  /** The modules `find_spec` finds, in order. */
  function FoundModules(modules: seq<string>, findSpec: string -> SpecLookup): seq<string>
  {
    if |modules| == 0 then []
    else (if findSpec(modules[0]).Found? then [modules[0]] else []) + FoundModules(modules[1..], findSpec)
  }

  function MovedNames(moved: seq<Moved>): (r: seq<string>)
    ensures |r| == |moved|
    ensures forall j :: 0 <= j < |moved| ==> r[j] == moved[j].moduleName
  {
    if |moved| == 0 then [] else [moved[0].moduleName] + MovedNames(moved[1..])
  }

  /** Every record names its module's place below `dir`. */
  ghost predicate PlacedBelow(moved: seq<Moved>, dir: Path)
  {
    forall j :: 0 <= j < |moved| ==>
      moved[j].destination == Child(ChildAll(dir, ParentParts(moved[j].moduleName)), LastPart(moved[j].moduleName))
  }

  /** The loop of `_snapshot_modules`, from the first module on; stops at
      the first exception, keeping what was done before it. */
  function SnapshotLoop(fs: FS, dir: Path, modules: seq<string>, policy: Policy, findSpec: string -> SpecLookup, tools: Tools)
    : (r: Outcome<seq<Moved>>)
    requires WF(fs) && Sane(tools)
    ensures WF(r.fs)
    ensures r.result.Success? ==> |r.result.value| <= |modules|
    decreases |modules|
  {
    if |modules| == 0 then Outcome(fs, Success([]))
    else
      var step := SnapshotModule(fs, dir, modules[0], policy, findSpec, tools);
      match step.result
      case Failure(e) => Outcome(step.fs, Failure(e))
      case Success(moved) => Prepend(moved, SnapshotLoop(step.fs, dir, modules[1..], policy, findSpec, tools))
  }

  /** The loop guarantees `LoopDone`. */
  lemma {:induction false} SnapshotLoopDone(fs: FS, dir: Path, modules: seq<string>, policy: Policy,
                                            findSpec: string -> SpecLookup, tools: Tools)
    requires WF(fs) && Sane(tools)
    ensures LoopDone(fs, SnapshotLoop(fs, dir, modules, policy, findSpec, tools), dir, modules, policy, findSpec)
    decreases |modules|
  {
    if |modules| > 0 {
      var step := SnapshotModule(fs, dir, modules[0], policy, findSpec, tools);
      SnapshotLoopStep(fs, dir, modules, policy, findSpec, tools);
      if step.result.Success? {
        var rest := SnapshotLoop(step.fs, dir, modules[1..], policy, findSpec, tools);
        SnapshotLoopDone(step.fs, dir, modules[1..], policy, findSpec, tools);
        TurnIsDone(fs, dir, modules[0], policy, findSpec, tools);
        LoopDoneCons(fs, step.fs, step.result.value, rest, dir, modules, policy, findSpec);
      }
    }
  }

  /** What a run of the loop over `modules` that returns `r` guarantees:
      nothing removed; on success, a record for exactly the modules
      `find_spec` found, in order, each placed below `dir` with its parent
      packages made, and no lookup raised (under `Raise`, none missed). */
  ghost predicate LoopDone(fs: FS, r: Outcome<seq<Moved>>, dir: Path, modules: seq<string>, policy: Policy,
                           findSpec: string -> SpecLookup)
  {
    && WF(r.fs) && Kept(fs, r.fs)
    && (r.result.Success? ==>
      && MovedNames(r.result.value) == FoundModules(modules, findSpec)
      && PlacedBelow(r.result.value, dir)
      && (forall i :: 0 <= i < |modules| ==>
            !findSpec(modules[i]).Raised? && (policy == Raise ==> findSpec(modules[i]).Found?))
      && (forall i :: 0 <= i < |modules| && findSpec(modules[i]).Found? ==> PackagesMade(r.fs, dir, modules[i])))
  }

  /** What one successful turn for `modules[0]` guarantees. */
  ghost predicate TurnDone(fs: FS, fs1: FS, moved: Option<Moved>, dir: Path, name: string, policy: Policy,
                           findSpec: string -> SpecLookup)
  {
    && WF(fs1) && Kept(fs, fs1)
    && (moved.Some? <==> findSpec(name).Found?)
    && !findSpec(name).Raised? && (policy == Raise ==> findSpec(name).Found?)
    && (moved.Some? ==>
      && moved.value.moduleName == name
      && moved.value.destination == Child(ChildAll(dir, ParentParts(name)), LastPart(name))
      && PackagesMade(fs1, dir, name))
  }

  lemma TurnIsDone(fs: FS, dir: Path, name: string, policy: Policy, findSpec: string -> SpecLookup, tools: Tools)
    requires WF(fs) && Sane(tools)
    requires SnapshotModule(fs, dir, name, policy, findSpec, tools).result.Success?
    ensures var step := SnapshotModule(fs, dir, name, policy, findSpec, tools);
      TurnDone(fs, step.fs, step.result.value, dir, name, policy, findSpec)
  {
  }

  /** One turn of the loop followed by the rest of it. */
  lemma LoopDoneCons(fs: FS, fs1: FS, moved: Option<Moved>, rest: Outcome<seq<Moved>>, dir: Path, modules: seq<string>,
                     policy: Policy, findSpec: string -> SpecLookup)
    requires |modules| > 0
    requires TurnDone(fs, fs1, moved, dir, modules[0], policy, findSpec)
    requires LoopDone(fs1, rest, dir, modules[1..], policy, findSpec)
    ensures LoopDone(fs, Prepend(moved, rest), dir, modules, policy, findSpec)
  {
    if rest.result.Success? {
      var head := if moved.Some? then [moved.value] else [];
      ConsNames(moved, rest.result.value, modules, findSpec);
      ConsPlaced(head, rest.result.value, dir);
      ConsLookups(fs1, rest.fs, dir, modules, policy, findSpec);
    }
  }

  lemma ConsNames(moved: Option<Moved>, more: seq<Moved>, modules: seq<string>, findSpec: string -> SpecLookup)
    requires |modules| > 0
    requires moved.Some? <==> findSpec(modules[0]).Found?
    requires moved.Some? ==> moved.value.moduleName == modules[0]
    requires MovedNames(more) == FoundModules(modules[1..], findSpec)
    ensures MovedNames((if moved.Some? then [moved.value] else []) + more) == FoundModules(modules, findSpec)
  {
    MovedNamesAppend(if moved.Some? then [moved.value] else [], more);
  }

  lemma ConsPlaced(head: seq<Moved>, more: seq<Moved>, dir: Path)
    requires PlacedBelow(head, dir) && PlacedBelow(more, dir)
    ensures PlacedBelow(head + more, dir)
  {
    var all := head + more;
    forall j | 0 <= j < |all|
      ensures all[j].destination == Child(ChildAll(dir, ParentParts(all[j].moduleName)), LastPart(all[j].moduleName))
    {
      if j >= |head| {
        assert all[j] == more[j - |head|];
      }
    }
  }

  lemma ConsLookups(fs1: FS, fs2: FS, dir: Path, modules: seq<string>, policy: Policy, findSpec: string -> SpecLookup)
    requires |modules| > 0 && WF(fs2) && Kept(fs1, fs2)
    requires !findSpec(modules[0]).Raised? && (policy == Raise ==> findSpec(modules[0]).Found?)
    requires findSpec(modules[0]).Found? ==> PackagesMade(fs1, dir, modules[0])
    requires forall i :: 0 <= i < |modules[1..]| ==>
      !findSpec(modules[1..][i]).Raised? && (policy == Raise ==> findSpec(modules[1..][i]).Found?)
    requires forall i :: 0 <= i < |modules[1..]| && findSpec(modules[1..][i]).Found? ==> PackagesMade(fs2, dir, modules[1..][i])
    ensures forall i :: 0 <= i < |modules| ==>
      !findSpec(modules[i]).Raised? && (policy == Raise ==> findSpec(modules[i]).Found?)
    ensures forall i :: 0 <= i < |modules| && findSpec(modules[i]).Found? ==> PackagesMade(fs2, dir, modules[i])
  {
    if findSpec(modules[0]).Found? {
      PackagesKeptBy(fs1, fs2, dir, modules[0]);
    }
    forall i | 1 <= i < |modules|
      ensures modules[i] == modules[1..][i - 1]
    {
    }
  }

  lemma MovedNamesAppend(a: seq<Moved>, b: seq<Moved>)
    ensures MovedNames(a + b) == MovedNames(a) + MovedNames(b)
  {
  }

  /** The found modules are among the modules; under `Raise` a successful
      loop has moved every one of them. */
  lemma LoopCounts(fs: FS, dir: Path, modules: seq<string>, policy: Policy, findSpec: string -> SpecLookup, tools: Tools)
    requires WF(fs) && Sane(tools)
    ensures var r := SnapshotLoop(fs, dir, modules, policy, findSpec, tools);
      && (r.result.Success? ==> |r.result.value| <= |modules|)
      && (r.result.Success? && policy == Raise ==> |r.result.value| == |modules| && MovedNames(r.result.value) == modules)
  {
    var r := SnapshotLoop(fs, dir, modules, policy, findSpec, tools);
    if r.result.Success? {
      assert MovedNames(r.result.value) == FoundModules(modules, findSpec)
        && (policy == Raise ==> forall i :: 0 <= i < |modules| ==> findSpec(modules[i]).Found?) by {
        SnapshotLoopDone(fs, dir, modules, policy, findSpec, tools);
      }
      FoundModulesBound(modules, findSpec);
      if policy == Raise {
        FoundModulesAll(modules, findSpec);
      }
    }
  }

  lemma {:induction false} FoundModulesBound(modules: seq<string>, findSpec: string -> SpecLookup)
    ensures |FoundModules(modules, findSpec)| <= |modules|
  {
    if |modules| > 0 {
      FoundModulesBound(modules[1..], findSpec);
    }
  }

  lemma {:induction false} FoundModulesAll(modules: seq<string>, findSpec: string -> SpecLookup)
    requires forall i :: 0 <= i < |modules| ==> findSpec(modules[i]).Found?
    ensures FoundModules(modules, findSpec) == modules
  {
    if |modules| > 0 {
      assert forall i :: 0 <= i < |modules[1..]| ==> modules[1..][i] == modules[i + 1];
      FoundModulesAll(modules[1..], findSpec);
      assert modules == [modules[0]] + modules[1..];
    }
  }

  /** The lookup lets the turn for `name` through in `fs`: it raised
      nothing, a missing module is only skipped under `Warn`, and a found
      one sits in exactly one directory. */
  predicate TurnFits(fs: FS, name: string, policy: Policy, findSpec: string -> SpecLookup)
  {
    match findSpec(name)
    case Raised => false
    case NotFound => policy == Warn
    case Found(locations) => |locations| == 1 && IsDir(fs, locations[0])
  }

  /** A module's single location, if it has one, is not inside the
      snapshot directory `dir`. */
  predicate Away(fs: FS, dir: Path, name: string, findSpec: string -> SpecLookup)
  {
    findSpec(name).Found? && |findSpec(name).locations| == 1 ==>
      !Below(KeyOf(fs, findSpec(name).locations[0]), KeyOf(fs, dir))
  }

  /** `after` differs from `before` only strictly inside `d`. */
  ghost predicate Inside(before: FS, after: FS, d: Key)
  {
    && after.cwd == before.cwd
    && (forall k :: k in before.nodes && !Below(k, d) ==> k in after.nodes && after.nodes[k] == before.nodes[k])
    && (forall k :: k in after.nodes && k !in before.nodes ==> Below(k, d))
  }

  /** With working tools, the turn for a top-level module succeeds exactly
      when the lookup lets it through, and changes nothing outside the
      snapshot directory. */
  lemma TopLevelTurn(fs: FS, dir: Path, name: string, policy: Policy, findSpec: string -> SpecLookup, tools: Tools)
    requires WF(fs) && Sane(tools) && ToolsWork(tools) && '.' !in name
    ensures var r := SnapshotModule(fs, dir, name, policy, findSpec, tools);
      && (r.result.Success? <==> TurnFits(fs, name, policy, findSpec))
      && Inside(fs, r.fs, KeyOf(fs, dir))
  {
    if TurnFits(fs, name, policy, findSpec) && findSpec(name).Found? {
      var location := findSpec(name).locations[0];
      assert ParentParts(name) == [];
      MoveFoundSucceeds(fs, dir, name, location, tools);
      var moved := Copy(fs, location, dir, tools).value;
      assert CopyOk(fs, moved, KeyOf(fs, dir));
    }
  }

  /** Changes inside `dir` do not change whether a lookup whose location
      lies outside `dir` lets a turn through. */
  lemma FitsInside(fs: FS, fs': FS, dir: Path, name: string, policy: Policy, findSpec: string -> SpecLookup)
    requires Inside(fs, fs', KeyOf(fs, dir)) && Away(fs, dir, name, findSpec)
    ensures Away(fs', dir, name, findSpec)
    ensures TurnFits(fs', name, policy, findSpec) <==> TurnFits(fs, name, policy, findSpec)
  {
    assert KeyOf(fs', dir) == KeyOf(fs, dir);
    if findSpec(name).Found? && |findSpec(name).locations| == 1 {
      assert KeyOf(fs', findSpec(name).locations[0]) == KeyOf(fs, findSpec(name).locations[0]);
    }
  }

  /** Every lookup lets its turn through. */
  predicate AllFit(fs: FS, modules: seq<string>, policy: Policy, findSpec: string -> SpecLookup)
  {
    forall i :: 0 <= i < |modules| ==> TurnFits(fs, modules[i], policy, findSpec)
  }

  /** Every module is top-level, and its single location, if it has one,
      lies outside `dir`. */
  predicate AllAway(fs: FS, dir: Path, modules: seq<string>, findSpec: string -> SpecLookup)
  {
    forall i :: 0 <= i < |modules| ==> '.' !in modules[i] && Away(fs, dir, modules[i], findSpec)
  }

  /** With working tools and top-level modules whose locations lie outside
      the snapshot directory, the loop succeeds exactly when every lookup
      lets its turn through. */
  lemma {:induction false} TopLevelLoop(fs: FS, dir: Path, modules: seq<string>, policy: Policy,
                                        findSpec: string -> SpecLookup, tools: Tools)
    requires WF(fs) && Sane(tools) && ToolsWork(tools) && AllAway(fs, dir, modules, findSpec)
    ensures SnapshotLoop(fs, dir, modules, policy, findSpec, tools).result.Success? <==> AllFit(fs, modules, policy, findSpec)
    decreases |modules|
  {
    if |modules| > 0 {
      var step := SnapshotModule(fs, dir, modules[0], policy, findSpec, tools);
      TopLevelTurn(fs, dir, modules[0], policy, findSpec, tools);
      SnapshotLoopStep(fs, dir, modules, policy, findSpec, tools);
      RestFits(fs, step.fs, dir, modules, policy, findSpec);
      if step.result.Success? {
        TopLevelLoop(step.fs, dir, modules[1..], policy, findSpec, tools);
      }
    }
  }

  /** After a turn that changed only the inside of `dir`, the rest of the
      modules fit exactly when they fitted before it. */
  lemma RestFits(fs: FS, fs': FS, dir: Path, modules: seq<string>, policy: Policy, findSpec: string -> SpecLookup)
    requires |modules| > 0 && Inside(fs, fs', KeyOf(fs, dir)) && AllAway(fs, dir, modules, findSpec)
    ensures AllAway(fs', dir, modules[1..], findSpec)
    ensures AllFit(fs', modules[1..], policy, findSpec) <==> AllFit(fs, modules[1..], policy, findSpec)
    ensures AllFit(fs, modules, policy, findSpec) <==>
      TurnFits(fs, modules[0], policy, findSpec) && AllFit(fs, modules[1..], policy, findSpec)
  {
    var rest := modules[1..];
    forall i | 0 <= i < |rest|
      ensures '.' !in rest[i] && Away(fs', dir, rest[i], findSpec)
      ensures TurnFits(fs', rest[i], policy, findSpec) <==> TurnFits(fs, rest[i], policy, findSpec)
    {
      assert rest[i] == modules[i + 1];
      FitsInside(fs, fs', dir, rest[i], policy, findSpec);
    }
    assert forall i :: 0 < i < |modules| ==> modules[i] == rest[i - 1];
  }

  /** Appends the names of one step's result to the rest's. */
  function Prepend(moved: Option<Moved>, rest: Outcome<seq<Moved>>): Outcome<seq<Moved>>
  {
    match rest.result
    case Failure(_) => rest
    case Success(more) => Outcome(rest.fs, Success((if moved.Some? then [moved.value] else []) + more))
  }

  /** The outcome of running `b` after an outcome of running `a`. */
  function AndThen(ra: Outcome<seq<Moved>>, dir: Path, b: seq<string>, policy: Policy,
                   findSpec: string -> SpecLookup, tools: Tools): Outcome<seq<Moved>>
    requires WF(ra.fs) && Sane(tools)
  {
    if ra.result.Failure? then ra
    else
      var rb := SnapshotLoop(ra.fs, dir, b, policy, findSpec, tools);
      if rb.result.Failure? then rb else Outcome(rb.fs, Success(ra.result.value + rb.result.value))
  }

  lemma SnapshotLoopStep(fs: FS, dir: Path, modules: seq<string>, policy: Policy, findSpec: string -> SpecLookup, tools: Tools)
    requires WF(fs) && Sane(tools) && |modules| > 0
    ensures var step := SnapshotModule(fs, dir, modules[0], policy, findSpec, tools);
      SnapshotLoop(fs, dir, modules, policy, findSpec, tools)
      == if step.result.Failure? then Outcome(step.fs, Failure(step.result.error))
         else Prepend(step.result.value, SnapshotLoop(step.fs, dir, modules[1..], policy, findSpec, tools))
  {
  }

  /** Running the loop over `a + b` is running it over `a`, then (unless
      that raised) over `b` from where `a` left the filesystem. */
  lemma {:induction false} SnapshotLoopAppend(fs: FS, dir: Path, a: seq<string>, b: seq<string>, policy: Policy,
                                              findSpec: string -> SpecLookup, tools: Tools)
    requires WF(fs) && Sane(tools)
    ensures SnapshotLoop(fs, dir, a + b, policy, findSpec, tools)
         == AndThen(SnapshotLoop(fs, dir, a, policy, findSpec, tools), dir, b, policy, findSpec, tools)
    decreases |a|, 1
  {
    if |a| == 0 {
      assert a + b == b;
      var rb := SnapshotLoop(fs, dir, b, policy, findSpec, tools);
      if rb.result.Success? {
        assert [] + rb.result.value == rb.result.value;
      }
    } else {
      AppendCons(fs, dir, a, b, policy, findSpec, tools);
    }
  }

  /** The induction step of `SnapshotLoopAppend`: the first turn of `a`. */
  lemma {:induction false} AppendCons(fs: FS, dir: Path, a: seq<string>, b: seq<string>, policy: Policy,
                                      findSpec: string -> SpecLookup, tools: Tools)
    requires WF(fs) && Sane(tools) && |a| > 0
    ensures SnapshotLoop(fs, dir, a + b, policy, findSpec, tools)
         == AndThen(SnapshotLoop(fs, dir, a, policy, findSpec, tools), dir, b, policy, findSpec, tools)
    decreases |a|, 0
  {
    assert (a + b)[0] == a[0] && (a + b)[1..] == a[1..] + b;
    SnapshotLoopStep(fs, dir, a + b, policy, findSpec, tools);
    SnapshotLoopStep(fs, dir, a, policy, findSpec, tools);
    var step := SnapshotModule(fs, dir, a[0], policy, findSpec, tools);
    if step.result.Success? {
      SnapshotLoopAppend(step.fs, dir, a[1..], b, policy, findSpec, tools);
      PrependAndThen(step.result.value, SnapshotLoop(step.fs, dir, a[1..], policy, findSpec, tools), dir, b, policy, findSpec, tools);
    }
  }

  /** Outcomes after which two module lists run alike continue alike. */
  lemma AndThenSame(ra: Outcome<seq<Moved>>, dir: Path, b1: seq<string>, b2: seq<string>, policy: Policy,
                    findSpec: string -> SpecLookup, tools: Tools)
    requires WF(ra.fs) && Sane(tools)
    requires ra.result.Success? ==> SnapshotLoop(ra.fs, dir, b1, policy, findSpec, tools) == SnapshotLoop(ra.fs, dir, b2, policy, findSpec, tools)
    ensures AndThen(ra, dir, b1, policy, findSpec, tools) == AndThen(ra, dir, b2, policy, findSpec, tools)
  {
  }

  /** Recording one more module in front commutes with running more
      modules after. */
  lemma PrependAndThen(m: Option<Moved>, ra: Outcome<seq<Moved>>, dir: Path, b: seq<string>, policy: Policy,
                       findSpec: string -> SpecLookup, tools: Tools)
    requires WF(ra.fs) && Sane(tools)
    ensures Prepend(m, AndThen(ra, dir, b, policy, findSpec, tools)) == AndThen(Prepend(m, ra), dir, b, policy, findSpec, tools)
  {
    if ra.result.Success? {
      var rb := SnapshotLoop(ra.fs, dir, b, policy, findSpec, tools);
      if rb.result.Success? {
        ConcatAssoc(if m.Some? then [m.value] else [], ra.result.value, rb.result.value);
      }
    }
  }

  lemma ConcatAssoc<T>(x: seq<T>, y: seq<T>, z: seq<T>)
    ensures x + (y + z) == (x + y) + z
  {
  }

  /** Under `Raise` a module without a spec stops everything: the
      filesystem is left as the modules before it left it. */
  lemma RaiseStopsAtMissing(fs: FS, dir: Path, pre: seq<string>, name: string, post: seq<string>,
                            findSpec: string -> SpecLookup, tools: Tools)
    requires WF(fs) && Sane(tools)
    requires findSpec(name).NotFound?
    requires SnapshotLoop(fs, dir, pre, Raise, findSpec, tools).result.Success?
    ensures SnapshotLoop(fs, dir, pre + [name] + post, Raise, findSpec, tools)
         == Outcome(SnapshotLoop(fs, dir, pre, Raise, findSpec, tools).fs, Failure(ValueError(name)))
  {
    assert pre + [name] + post == pre + ([name] + post);
    SnapshotLoopAppend(fs, dir, pre, [name] + post, Raise, findSpec, tools);
    var ra := SnapshotLoop(fs, dir, pre, Raise, findSpec, tools);
    SnapshotLoopStep(ra.fs, dir, [name] + post, Raise, findSpec, tools);
    assert ([name] + post)[0] == name;
  }

  /** Under `Warn` a module without a spec is as good as absent. */
  lemma WarnSkipsMissing(fs: FS, dir: Path, pre: seq<string>, name: string, post: seq<string>,
                         findSpec: string -> SpecLookup, tools: Tools)
    requires WF(fs) && Sane(tools)
    requires findSpec(name).NotFound?
    ensures SnapshotLoop(fs, dir, pre + [name] + post, Warn, findSpec, tools)
         == SnapshotLoop(fs, dir, pre + post, Warn, findSpec, tools)
  {
    assert pre + [name] + post == pre + ([name] + post);
    SnapshotLoopAppend(fs, dir, pre, [name] + post, Warn, findSpec, tools);
    SnapshotLoopAppend(fs, dir, pre, post, Warn, findSpec, tools);
    var ra := SnapshotLoop(fs, dir, pre, Warn, findSpec, tools);
    if ra.result.Success? {
      SkipHead(ra.fs, dir, name, post, findSpec, tools);
    }
    AndThenSame(ra, dir, [name] + post, post, Warn, findSpec, tools);
  }

  lemma SkipHead(fs: FS, dir: Path, name: string, post: seq<string>, findSpec: string -> SpecLookup, tools: Tools)
    requires WF(fs) && Sane(tools)
    requires findSpec(name).NotFound?
    ensures SnapshotLoop(fs, dir, [name] + post, Warn, findSpec, tools) == SnapshotLoop(fs, dir, post, Warn, findSpec, tools)
  {
    SnapshotLoopStep(fs, dir, [name] + post, Warn, findSpec, tools);
    assert ([name] + post)[0] == name && ([name] + post)[1..] == post;
    var rest := SnapshotLoop(fs, dir, post, Warn, findSpec, tools);
    if rest.result.Success? {
      assert [] + rest.result.value == rest.result.value;
    }
  }

  /** `_snapshot_modules`: the loop, then the directory (made absolute) and
      the module list exactly as given, skipped modules included. */
  function SnapshotModules(fs: FS, dir: Path, modules: seq<string>, policy: Policy, findSpec: string -> SpecLookup, tools: Tools)
    : (r: Outcome<SnapshotInfo>)
    requires WF(fs) && Sane(tools)
    ensures WF(r.fs)
    ensures r.fs == SnapshotLoop(fs, dir, modules, policy, findSpec, tools).fs
    ensures r.result.Success? <==> SnapshotLoop(fs, dir, modules, policy, findSpec, tools).result.Success?
    ensures r.result.Success? ==> r.result.value.modules == modules
    ensures r.result.Success? ==>
      r.result.value.snapshotDir.isAbs && r.result.value.snapshotDir == Absolute(fs.cwd, dir)
    ensures Kept(fs, r.fs)
    ensures r.result.Success? ==> forall i :: 0 <= i < |modules| ==>
      !findSpec(modules[i]).Raised? && (policy == Raise ==> findSpec(modules[i]).Found?)
    ensures r.result.Success? ==> forall i :: 0 <= i < |modules| && findSpec(modules[i]).Found? ==>
      PackagesMade(r.fs, dir, modules[i])
  {
    SnapshotLoopDone(fs, dir, modules, policy, findSpec, tools);
    var run := SnapshotLoop(fs, dir, modules, policy, findSpec, tools);
    match run.result
    case Failure(e) => Outcome(run.fs, Failure(e))
    case Success(_) => Outcome(run.fs, Success(SnapshotInfo(Absolute(fs.cwd, dir), modules)))
  }

  const ConfigFile: string := "config.json"
  const RequirementsFile: string := "requirements.txt"
  const MetaFile: string := "meta.json"
  const BinDirName: string := ".bin"
  const ActivateFile: string := "activate"
  const ExecuteFile: string := "execute"

  /** `requirements.txt` in the metadata directory of `dir` holds the
      `pip freeze` listing, whenever there is one and the file was not a
      directory in `before` (when writing it cannot fail). */
  ghost predicate FreezeSaved(before: FS, after: FS, dir: Path, frozen: Option<string>)
  {
    var rk := KeyOf(before, dir) + [MetaDirName, RequirementsFile];
    frozen.Some? && !(rk in before.nodes && before.nodes[rk] == Dir) ==> rk in after.nodes && after.nodes[rk] == File(frozen.value)
  }

  /** What the metadata steps leave in `after`: the metadata directory of
      `dir` (located from `before`'s working directory) holding the
      configuration JSON, the metadata JSON made from the configuration
      and the installed packages `deps`, and the requirements listing as
      `FreezeSaved` promises it. */
  ghost predicate MetaWritten(before: FS, after: FS, dir: Path, cfg: SnapshotConfig, deps: seq<Dependency>, tools: Tools)
  {
    var k := KeyOf(before, dir);
    && IsDir(after, Child(dir, MetaDirName))
    && k + [MetaDirName, ConfigFile] in after.nodes
    && after.nodes[k + [MetaDirName, ConfigFile]] == File(tools.configJson(cfg))
    && k + [MetaDirName, MetaFile] in after.nodes
    && after.nodes[k + [MetaDirName, MetaFile]] == File(tools.metaJson(cfg, deps))
    && FreezeSaved(before, after, dir, tools.pipFreeze)
  }

  /** A step that changes only `at`, not the requirements file, keeps
      what the later steps promise true of the state before it. */
  lemma MetaWrittenBefore(fs: FS, fs1: FS, after: FS, dir: Path, cfg: SnapshotConfig, deps: seq<Dependency>,
                          tools: Tools, at: Key)
    requires OnlyAt(fs, fs1, at) && at != KeyOf(fs, dir) + [MetaDirName, RequirementsFile]
    requires MetaWritten(fs1, after, dir, cfg, deps, tools)
    ensures MetaWritten(fs, after, dir, cfg, deps, tools)
  {
    assert KeyOf(fs1, dir) == KeyOf(fs, dir);
    FreezeSavedBefore(fs, fs1, after, dir, at, tools.pipFreeze);
  }

  /** `(d / name).mkdir(exist_ok=True)` works: the entry is a directory
      already, or it is absent and `d` is a directory. */
  predicate DirCanBeMade(fs: FS, d: Path, name: string)
  {
    IsDir(fs, Child(d, name)) || (!Exists(fs, Child(d, name)) && IsDir(fs, d))
  }

  /** Every metadata step can be done in `fs`: the metadata directory can
      be made, neither JSON file is a directory, and `pip list` works and
      every entry it prints validates. */
  predicate MetaReady(fs: FS, dir: Path, pipDeps: Result<seq<Dependency>, Exc>)
  {
    && DirCanBeMade(fs, dir, MetaDirName)
    && !IsDir(fs, Child(Child(dir, MetaDirName), ConfigFile))
    && pipDeps.Success?
    && !IsDir(fs, Child(Child(dir, MetaDirName), MetaFile))
  }

  /** Both scripts can be written in `fs`. */
  predicate ScriptsReady(fs: FS, dir: Path)
  {
    && DirCanBeMade(fs, dir, BinDirName)
    && !IsDir(fs, Child(Child(dir, BinDirName), ActivateFile))
    && !IsDir(fs, Child(Child(dir, BinDirName), ExecuteFile))
  }

  /** The metadata half of `_snapshot_meta`: the metadata directory with
      the configuration, the installed requirements (when `pip freeze`
      works; any failure there, the write included, is swallowed) and the
      metadata, whose `pip list` call is not guarded. */
  function MetaFiles(fs: FS, cfg: SnapshotConfig, pipDeps: Result<seq<Dependency>, Exc>, dir: Path, tools: Tools)
    : (r: Outcome<()>)
    requires WF(fs)
    ensures WF(r.fs) && r.fs.cwd == fs.cwd && Kept(fs, r.fs)
    ensures Confined(fs, r.fs, KeyOf(fs, dir) + [MetaDirName])
    ensures r.result.Success? ==> pipDeps.Success? && MetaWritten(fs, r.fs, dir, cfg, pipDeps.value, tools)
  {
    var k := KeyOf(fs, dir);
    var dk := k + [MetaDirName];
    MetaKeys(fs, fs, dir);
    match MkDir(fs, Child(dir, MetaDirName), true)
    case Failure(e) => Outcome(fs, Failure(e))
    case Success(fs1) =>
      MetaKeys(fs, fs1, dir);
      ConfinedStep(fs, fs1, dk, dk);
      var r := WriteConfig(fs1, cfg, pipDeps, dir, tools);
      ConfinedTrans(fs, fs1, r.fs, dk);
      if r.result.Success? then
        MetaWrittenBefore(fs, fs1, r.fs, dir, cfg, pipDeps.value, tools, dk);
        r
      else r
  }

  /** The metadata steps succeed exactly when they can all be done. */
  lemma MetaFilesSucceed(fs: FS, cfg: SnapshotConfig, pipDeps: Result<seq<Dependency>, Exc>, dir: Path, tools: Tools)
    requires WF(fs)
    ensures MetaFiles(fs, cfg, pipDeps, dir, tools).result.Success? <==> MetaReady(fs, dir, pipDeps)
  {
    ChildParent(fs, dir, MetaDirName);
    var made := MkDir(fs, Child(dir, MetaDirName), true);
    if made.Success? {
      var fs1 := made.value;
      assert MetaFiles(fs, cfg, pipDeps, dir, tools).result == WriteConfig(fs1, cfg, pipDeps, dir, tools).result;
      MetaDirMade(fs, fs1, dir);
      WriteConfigSucceeds(fs1, cfg, pipDeps, dir, tools);
    }
  }

  /** Making the metadata directory leaves whether either JSON file is a
      directory as it was. */
  lemma MetaDirMade(fs: FS, fs1: FS, dir: Path)
    requires WF(fs) && MkDir(fs, Child(dir, MetaDirName), true) == Success(fs1)
    ensures IsDir(fs1, Child(Child(dir, MetaDirName), ConfigFile)) == IsDir(fs, Child(Child(dir, MetaDirName), ConfigFile))
    ensures IsDir(fs1, Child(Child(dir, MetaDirName), MetaFile)) == IsDir(fs, Child(Child(dir, MetaDirName), MetaFile))
  {
    MetaKeys(fs, fs, dir);
    MetaKeys(fs, fs1, dir);
    var k := KeyOf(fs, dir);
    var dk, ck, mk := k + [MetaDirName], k + [MetaDirName, ConfigFile], k + [MetaDirName, MetaFile];
    assert |ck| != |dk| && |mk| != |dk|;
    SameAt(fs, fs1, dk, ck);
    SameAt(fs, fs1, dk, mk);
  }

  /** A step that changes only `at`, not the requirements file, does not
      change whether the listing can be saved. */
  lemma FreezeSavedBefore(fs: FS, fs1: FS, after: FS, dir: Path, at: Key, frozen: Option<string>)
    requires OnlyAt(fs, fs1, at) && at != KeyOf(fs, dir) + [MetaDirName, RequirementsFile]
    requires FreezeSaved(fs1, after, dir, frozen)
    ensures FreezeSaved(fs, after, dir, frozen)
  {
  }

  /** An entry other than the one a step may change is there after the
      step exactly when it was there before, and unchanged. */
  lemma SameAt(before: FS, after: FS, at: Key, k: Key)
    requires OnlyAt(before, after, at) && k != at
    ensures k in after.nodes <==> k in before.nodes
    ensures k in before.nodes ==> after.nodes[k] == before.nodes[k]
  {
  }

  /** The rest of the metadata, once its directory exists: `config.json`,
      then the `pip freeze` listing and `meta.json`. */
  function WriteConfig(fs: FS, cfg: SnapshotConfig, pipDeps: Result<seq<Dependency>, Exc>, dir: Path, tools: Tools)
    : (r: Outcome<()>)
    requires WF(fs) && IsDir(fs, Child(dir, MetaDirName))
    ensures WF(r.fs) && r.fs.cwd == fs.cwd && Kept(fs, r.fs)
    ensures Confined(fs, r.fs, KeyOf(fs, dir) + [MetaDirName])
    ensures r.result.Success? ==> pipDeps.Success? && MetaWritten(fs, r.fs, dir, cfg, pipDeps.value, tools)
  {
    match WriteText(fs, Child(Child(dir, MetaDirName), ConfigFile), tools.configJson(cfg))
    case Failure(e) => Outcome(fs, Failure(e))
    case Success(fs2) =>
      ConfigStep(fs, fs2, cfg, dir, tools);
      ConfigWrittenKeeps(fs, fs2, cfg, dir, tools);
      var r := WriteMeta(fs2, cfg, pipDeps, dir, tools);
      ConfinedTrans(fs, fs2, r.fs, KeyOf(fs, dir) + [MetaDirName]);
      KeptTrans(fs, fs2, r.fs);
      if r.result.Success? then
        MetaWrittenBefore(fs, fs2, r.fs, dir, cfg, pipDeps.value, tools, KeyOf(fs, dir) + [MetaDirName, ConfigFile]);
        r
      else r
  }

  /** Writing `config.json` changes nothing outside the metadata directory
      and leaves what the last metadata steps need. */
  lemma ConfigStep(fs: FS, fs2: FS, cfg: SnapshotConfig, dir: Path, tools: Tools)
    requires WF(fs) && IsDir(fs, Child(dir, MetaDirName))
    requires WriteText(fs, Child(Child(dir, MetaDirName), ConfigFile), tools.configJson(cfg)) == Success(fs2)
    ensures WF(fs2) && Kept(fs, fs2) && IsDir(fs2, Child(dir, MetaDirName))
    ensures Confined(fs, fs2, KeyOf(fs, dir) + [MetaDirName])
    ensures KeyOf(fs2, dir) + [MetaDirName, ConfigFile] in fs2.nodes
    ensures fs2.nodes[KeyOf(fs2, dir) + [MetaDirName, ConfigFile]] == File(tools.configJson(cfg))
  {
    MetaKeys(fs, fs, dir);
    MetaKeys(fs, fs2, dir);
    var k := KeyOf(fs, dir);
    var dk, ck := k + [MetaDirName], k + [MetaDirName, ConfigFile];
    assert |dk| != |ck|;
    KeptAt(fs, fs2, ck, dk);
    OnlyAtKept(fs, fs2, ck);
    assert Below(ck, dk) by { assert ck[..|dk|] == dk; }
    ConfinedStep(fs, fs2, ck, dk);
  }

  /** The rest of the metadata succeeds exactly when neither JSON file is
      a directory and `pip list` works; when `pip list` is all that fails,
      `config.json` and the requirements listing are already written. */
  lemma WriteConfigSucceeds(fs: FS, cfg: SnapshotConfig, pipDeps: Result<seq<Dependency>, Exc>, dir: Path, tools: Tools)
    requires WF(fs) && IsDir(fs, Child(dir, MetaDirName))
    ensures var r := WriteConfig(fs, cfg, pipDeps, dir, tools);
      r.result.Success? <==>
        && !IsDir(fs, Child(Child(dir, MetaDirName), ConfigFile))
        && pipDeps.Success?
        && !IsDir(fs, Child(Child(dir, MetaDirName), MetaFile))
    ensures var r := WriteConfig(fs, cfg, pipDeps, dir, tools);
      !IsDir(fs, Child(Child(dir, MetaDirName), ConfigFile)) && pipDeps.Failure? ==>
        && r.result == Failure(pipDeps.error)
        && KeyOf(fs, dir) + [MetaDirName, ConfigFile] in r.fs.nodes
        && r.fs.nodes[KeyOf(fs, dir) + [MetaDirName, ConfigFile]] == File(tools.configJson(cfg))
        && FreezeSaved(fs, r.fs, dir, tools.pipFreeze)
  {
    var meta := Child(dir, MetaDirName);
    var written := WriteText(fs, Child(meta, ConfigFile), tools.configJson(cfg));
    ChildParent(fs, meta, ConfigFile);
    if written.Success? {
      var fs2 := written.value;
      WriteConfigThenMeta(fs, cfg, pipDeps, dir, tools);
      WriteMetaSucceeds(fs2, cfg, pipDeps, dir, tools);
      ConfigWrittenKeeps(fs, fs2, cfg, dir, tools);
      FreezeSavedBefore(fs, fs2, WriteMeta(fs2, cfg, pipDeps, dir, tools).fs, dir,
                        KeyOf(fs, dir) + [MetaDirName, ConfigFile], tools.pipFreeze);
    }
  }

  /** Writing `config.json` leaves whether `meta.json` is a directory as it
      was, and does not touch the requirements file. */
  lemma ConfigWrittenKeeps(fs: FS, fs2: FS, cfg: SnapshotConfig, dir: Path, tools: Tools)
    requires WF(fs)
    requires WriteText(fs, Child(Child(dir, MetaDirName), ConfigFile), tools.configJson(cfg)) == Success(fs2)
    ensures fs2.cwd == fs.cwd && KeyOf(fs2, dir) == KeyOf(fs, dir)
    ensures IsDir(fs2, Child(Child(dir, MetaDirName), MetaFile)) == IsDir(fs, Child(Child(dir, MetaDirName), MetaFile))
    ensures OnlyAt(fs, fs2, KeyOf(fs, dir) + [MetaDirName, ConfigFile])
    ensures KeyOf(fs, dir) + [MetaDirName, ConfigFile] != KeyOf(fs, dir) + [MetaDirName, RequirementsFile]
  {
    var k := KeyOf(fs, dir);
    var ck, mk := k + [MetaDirName, ConfigFile], k + [MetaDirName, MetaFile];
    MetaKeys(fs, fs, dir);
    MetaKeys(fs, fs2, dir);
    assert ck[|k| + 1] == ConfigFile && (k + [MetaDirName, RequirementsFile])[|k| + 1] == RequirementsFile;
    assert mk[|k| + 1] == MetaFile;
    SameAt(fs, fs2, ck, mk);
  }

  /** Once `config.json` is written, the rest is the last metadata steps. */
  lemma WriteConfigThenMeta(fs: FS, cfg: SnapshotConfig, pipDeps: Result<seq<Dependency>, Exc>, dir: Path, tools: Tools)
    requires WF(fs) && IsDir(fs, Child(dir, MetaDirName))
    requires WriteText(fs, Child(Child(dir, MetaDirName), ConfigFile), tools.configJson(cfg)).Success?
    ensures var fs2 := WriteText(fs, Child(Child(dir, MetaDirName), ConfigFile), tools.configJson(cfg)).value;
      && IsDir(fs2, Child(dir, MetaDirName))
      && KeyOf(fs2, dir) + [MetaDirName, ConfigFile] in fs2.nodes
      && fs2.nodes[KeyOf(fs2, dir) + [MetaDirName, ConfigFile]] == File(tools.configJson(cfg))
      && WriteConfig(fs, cfg, pipDeps, dir, tools) == WriteMeta(fs2, cfg, pipDeps, dir, tools)
  {
    var fs2 := WriteText(fs, Child(Child(dir, MetaDirName), ConfigFile), tools.configJson(cfg)).value;
    MetaKeys(fs, fs2, dir);
    MetaKeys(fs, fs, dir);
    var k := KeyOf(fs, dir);
    var dk, ck := k + [MetaDirName], k + [MetaDirName, ConfigFile];
    assert |dk| != |ck|;
    KeptAt(fs, fs2, ck, dk);
  }

  /** The last metadata steps: the `pip freeze` listing, whose failure is
      swallowed, then the installed packages from `pip list`, whose failure
      ends the step, and `meta.json`; `config.json` stays as written. */
  function WriteMeta(fs: FS, cfg: SnapshotConfig, pipDeps: Result<seq<Dependency>, Exc>, dir: Path, tools: Tools)
    : (r: Outcome<()>)
    requires WF(fs) && IsDir(fs, Child(dir, MetaDirName))
    requires KeyOf(fs, dir) + [MetaDirName, ConfigFile] in fs.nodes
    requires fs.nodes[KeyOf(fs, dir) + [MetaDirName, ConfigFile]] == File(tools.configJson(cfg))
    ensures WF(r.fs) && r.fs.cwd == fs.cwd && Kept(fs, r.fs)
    ensures Confined(fs, r.fs, KeyOf(fs, dir) + [MetaDirName])
    ensures KeyOf(fs, dir) + [MetaDirName, ConfigFile] in r.fs.nodes
    ensures r.fs.nodes[KeyOf(fs, dir) + [MetaDirName, ConfigFile]] == File(tools.configJson(cfg))
    ensures FreezeSaved(fs, r.fs, dir, tools.pipFreeze)
    ensures r.result.Success? ==> pipDeps.Success? && MetaWritten(fs, r.fs, dir, cfg, pipDeps.value, tools)
  {
    var fs3 := SaveFreeze(fs, Child(Child(dir, MetaDirName), RequirementsFile), tools.pipFreeze);
    FreezeStep(fs, dir, cfg, tools);
    match pipDeps
    case Failure(e) => Outcome(fs3, Failure(e))
    case Success(deps) =>
      match WriteText(fs3, Child(Child(dir, MetaDirName), MetaFile), tools.metaJson(cfg, deps))
      case Failure(e) => Outcome(fs3, Failure(e))
      case Success(fs4) =>
        MetaJsonStep(fs, fs3, fs4, dir, cfg, deps, tools);
        Outcome(fs4, Success(()))
  }

  /** The requirements step changes at most `requirements.txt`, leaving
      the metadata directory and `config.json` in place. */
  lemma FreezeStep(fs: FS, dir: Path, cfg: SnapshotConfig, tools: Tools)
    requires WF(fs) && IsDir(fs, Child(dir, MetaDirName))
    requires KeyOf(fs, dir) + [MetaDirName, ConfigFile] in fs.nodes
    requires fs.nodes[KeyOf(fs, dir) + [MetaDirName, ConfigFile]] == File(tools.configJson(cfg))
    ensures var fs3 := SaveFreeze(fs, Child(Child(dir, MetaDirName), RequirementsFile), tools.pipFreeze);
      && WF(fs3) && fs3.cwd == fs.cwd && Kept(fs, fs3) && IsDir(fs3, Child(dir, MetaDirName))
      && OnlyAt(fs, fs3, KeyOf(fs, dir) + [MetaDirName, RequirementsFile])
      && Confined(fs, fs3, KeyOf(fs, dir) + [MetaDirName])
      && KeyOf(fs, dir) + [MetaDirName, ConfigFile] in fs3.nodes
      && fs3.nodes[KeyOf(fs, dir) + [MetaDirName, ConfigFile]] == File(tools.configJson(cfg))
      && FreezeSaved(fs, fs3, dir, tools.pipFreeze)
  {
    var k := KeyOf(fs, dir);
    var dk, ck, rk := k + [MetaDirName], k + [MetaDirName, ConfigFile], k + [MetaDirName, RequirementsFile];
    MetaKeys(fs, fs, dir);
    var fs3 := SaveFreeze(fs, Child(Child(dir, MetaDirName), RequirementsFile), tools.pipFreeze);
    assert rk[|k| + 1] != ck[|k| + 1] && |rk| != |dk|;
    KeptAt(fs, fs3, rk, ck);
    KeptAt(fs, fs3, rk, dk);
    MetaKeys(fs, fs3, dir);
    FreezeSavedStep(fs, dir, tools);
  }

  /** The requirements step saves the listing as promised, and changes
      nothing outside the metadata directory. */
  lemma FreezeSavedStep(fs: FS, dir: Path, tools: Tools)
    requires WF(fs) && IsDir(fs, Child(dir, MetaDirName))
    ensures var fs3 := SaveFreeze(fs, Child(Child(dir, MetaDirName), RequirementsFile), tools.pipFreeze);
      && Confined(fs, fs3, KeyOf(fs, dir) + [MetaDirName])
      && FreezeSaved(fs, fs3, dir, tools.pipFreeze)
  {
    var k := KeyOf(fs, dir);
    var dk, rk := k + [MetaDirName], k + [MetaDirName, RequirementsFile];
    MetaKeys(fs, fs, dir);
    var fs3 := SaveFreeze(fs, Child(Child(dir, MetaDirName), RequirementsFile), tools.pipFreeze);
    assert FreezeSaved(fs, fs3, dir, tools.pipFreeze) by {
      assert Parent(rk) == dk;
    }
    assert Below(rk, dk) by { assert rk[..|dk|] == dk; }
    ConfinedStep(fs, fs3, rk, dk);
  }

  /** Writing `meta.json` after the requirements step completes the
      metadata and keeps everything outside the metadata directory. */
  lemma MetaJsonStep(fs: FS, fs3: FS, fs4: FS, dir: Path, cfg: SnapshotConfig, deps: seq<Dependency>, tools: Tools)
    requires WF(fs) && IsDir(fs, Child(dir, MetaDirName)) && WF(fs3)
    requires KeyOf(fs, dir) + [MetaDirName, ConfigFile] in fs.nodes
    requires fs.nodes[KeyOf(fs, dir) + [MetaDirName, ConfigFile]] == File(tools.configJson(cfg))
    requires fs3.cwd == fs.cwd && Kept(fs, fs3)
    requires OnlyAt(fs, fs3, KeyOf(fs, dir) + [MetaDirName, RequirementsFile])
    requires Confined(fs, fs3, KeyOf(fs, dir) + [MetaDirName])
    requires FreezeSaved(fs, fs3, dir, tools.pipFreeze)
    requires WriteText(fs3, Child(Child(dir, MetaDirName), MetaFile), tools.metaJson(cfg, deps)) == Success(fs4)
    ensures WF(fs4) && fs4.cwd == fs.cwd && Kept(fs, fs4)
    ensures Confined(fs, fs4, KeyOf(fs, dir) + [MetaDirName])
    ensures MetaWritten(fs, fs4, dir, cfg, deps, tools)
  {
    var k := KeyOf(fs, dir);
    var dk, mk := k + [MetaDirName], k + [MetaDirName, MetaFile];
    MetaKeys(fs, fs3, dir);
    MetaJsonWritten(fs, fs3, fs4, dir, cfg, deps, tools);
    assert Below(mk, dk) by { assert mk[..|dk|] == dk; }
    ConfinedStep(fs3, fs4, mk, dk);
    ConfinedTrans(fs, fs3, fs4, dk);
  }

  /** The last metadata steps succeed exactly when `pip list` works and
      `meta.json` is not a directory; a failing `pip list` raises its own
      error. */
  lemma WriteMetaSucceeds(fs: FS, cfg: SnapshotConfig, pipDeps: Result<seq<Dependency>, Exc>, dir: Path, tools: Tools)
    requires WF(fs) && IsDir(fs, Child(dir, MetaDirName))
    requires KeyOf(fs, dir) + [MetaDirName, ConfigFile] in fs.nodes
    requires fs.nodes[KeyOf(fs, dir) + [MetaDirName, ConfigFile]] == File(tools.configJson(cfg))
    ensures var r := WriteMeta(fs, cfg, pipDeps, dir, tools);
      && (pipDeps.Failure? ==> r.result == Failure(pipDeps.error))
      && (r.result.Success? <==>
            pipDeps.Success? && !IsDir(fs, Child(Child(dir, MetaDirName), MetaFile)))
  {
    var k := KeyOf(fs, dir);
    var dk, rk, mk := k + [MetaDirName], k + [MetaDirName, RequirementsFile], k + [MetaDirName, MetaFile];
    MetaKeys(fs, fs, dir);
    assert rk[|k| + 1] != mk[|k| + 1] && |rk| != |dk|;
    var fs3 := SaveFreeze(fs, Child(Child(dir, MetaDirName), RequirementsFile), tools.pipFreeze);
    MetaKeys(fs, fs3, dir);
    SameAt(fs, fs3, rk, dk);
    SameAt(fs, fs3, rk, mk);
    ChildParent(fs3, Child(dir, MetaDirName), MetaFile);
  }

  /** The requirements step (changing at most `requirements.txt`) and the
      `meta.json` step (changing only `meta.json`) together leave the whole
      metadata in place. */
  lemma MetaJsonWritten(fs: FS, fs3: FS, fs4: FS, dir: Path, cfg: SnapshotConfig, deps: seq<Dependency>, tools: Tools)
    requires IsDir(fs, Child(dir, MetaDirName)) && Kept(fs, fs3)
    requires KeyOf(fs, dir) + [MetaDirName, ConfigFile] in fs.nodes
    requires fs.nodes[KeyOf(fs, dir) + [MetaDirName, ConfigFile]] == File(tools.configJson(cfg))
    requires OnlyAt(fs, fs3, KeyOf(fs, dir) + [MetaDirName, RequirementsFile])
    requires FreezeSaved(fs, fs3, dir, tools.pipFreeze)
    requires OnlyAt(fs3, fs4, KeyOf(fs, dir) + [MetaDirName, MetaFile])
    requires KeyOf(fs, dir) + [MetaDirName, MetaFile] in fs4.nodes
    requires fs4.nodes[KeyOf(fs, dir) + [MetaDirName, MetaFile]] == File(tools.metaJson(cfg, deps))
    ensures MetaWritten(fs, fs4, dir, cfg, deps, tools) && Kept(fs, fs4)
  {
    var k := KeyOf(fs, dir);
    MetaKeys(fs, fs4, dir);
    MetaKeys(fs, fs, dir);
    var dk, ck, rk, mk := k + [MetaDirName], k + [MetaDirName, ConfigFile], k + [MetaDirName, RequirementsFile], k + [MetaDirName, MetaFile];
    assert ck[|k| + 1] != mk[|k| + 1] && rk[|k| + 1] != ck[|k| + 1] && rk[|k| + 1] != mk[|k| + 1];
    assert |dk| != |rk| && |dk| != |mk|;
    assert KeyOf(fs4, dir) == k;
    OnlyAtKept(fs3, fs4, mk);
    KeptTrans(fs, fs3, fs4);
  }

  /** An entry other than the one a step may change is left as it was. */
  lemma KeptAt(before: FS, after: FS, at: Key, k: Key)
    requires OnlyAt(before, after, at)
    requires k != at && k in before.nodes
    ensures k in after.nodes && after.nodes[k] == before.nodes[k]
  {
  }

  /** The `pip freeze` step: the listing is written when there is one,
      and a failed write leaves the filesystem as it was. */
  function SaveFreeze(fs: FS, p: Path, frozen: Option<string>): (r: FS)
    requires WF(fs)
    ensures WF(r) && OnlyAt(fs, r, KeyOf(fs, p)) && Kept(fs, r)
    ensures frozen.None? ==> r == fs
    ensures frozen.Some? && WriteText(fs, p, frozen.value).Success? ==> KeyOf(fs, p) in r.nodes && r.nodes[KeyOf(fs, p)] == File(frozen.value)
  {
    match frozen
    case None => fs
    case Some(text) =>
      match WriteText(fs, p, text)
      case Failure(_) => fs
      case Success(fs') => fs'
  }

  /** Every entry of `before` other than `d` and what lies below it is
      still in `after`, unchanged. */
  ghost predicate KeptOutside(before: FS, after: FS, d: Key)
  {
    forall k :: k in before.nodes && k != d && !Below(k, d) ==> k in after.nodes && after.nodes[k] == before.nodes[k]
  }

  /** `after` differs from `before` only at `d` and below it: nothing
      outside changes and nothing is added outside. */
  ghost predicate Confined(before: FS, after: FS, d: Key)
  {
    && KeptOutside(before, after, d)
    && forall k :: k in after.nodes && k !in before.nodes ==> k == d || Below(k, d)
  }

  /** What the scripts step leaves in `after`: the scripts directory of
      `dir` holding the activation and the execution script generated for
      `dir`. */
  ghost predicate ScriptsWritten(before: FS, after: FS, dir: Path, tools: Tools)
  {
    var k := KeyOf(before, dir);
    && IsDir(after, Child(dir, BinDirName))
    && k + [BinDirName, ActivateFile] in after.nodes
    && after.nodes[k + [BinDirName, ActivateFile]] == File(tools.activateScript(dir))
    && k + [BinDirName, ExecuteFile] in after.nodes
    && after.nodes[k + [BinDirName, ExecuteFile]] == File(tools.executeScript(dir))
  }

  /** The scripts half of `_snapshot_meta`: the scripts directory with the
      activation and execution scripts; nothing outside it is touched. */
  function Scripts(fs: FS, dir: Path, tools: Tools): (r: Outcome<()>)
    requires WF(fs)
    ensures WF(r.fs) && r.fs.cwd == fs.cwd && Kept(fs, r.fs)
    ensures Confined(fs, r.fs, KeyOf(fs, dir) + [BinDirName])
    ensures r.result.Success? ==> ScriptsWritten(fs, r.fs, dir, tools)
  {
    MetaKeys(fs, fs, dir);
    match MkDir(fs, Child(dir, BinDirName), true)
    case Failure(e) => Outcome(fs, Failure(e))
    case Success(fs1) =>
      ConfinedStep(fs, fs1, KeyOf(fs, dir) + [BinDirName], KeyOf(fs, dir) + [BinDirName]);
      var r := WriteScripts(fs1, dir, tools);
      ConfinedTrans(fs, fs1, r.fs, KeyOf(fs, dir) + [BinDirName]);
      KeptTrans(fs, fs1, r.fs);
      assert KeyOf(fs1, dir) == KeyOf(fs, dir);
      r
  }

  /** The two scripts, once the scripts directory exists. */
  function WriteScripts(fs: FS, dir: Path, tools: Tools): (r: Outcome<()>)
    requires WF(fs) && IsDir(fs, Child(dir, BinDirName))
    ensures WF(r.fs) && r.fs.cwd == fs.cwd && Kept(fs, r.fs)
    ensures Confined(fs, r.fs, KeyOf(fs, dir) + [BinDirName])
    ensures r.result.Success? ==> ScriptsWritten(fs, r.fs, dir, tools)
  {
    var bin := Child(dir, BinDirName);
    MetaKeys(fs, fs, dir);
    var binKey, ak, ek := KeyOf(fs, dir) + [BinDirName], KeyOf(fs, dir) + [BinDirName, ActivateFile], KeyOf(fs, dir) + [BinDirName, ExecuteFile];
    assert ak[|binKey|] != ek[|binKey|];
    match WriteInDir(fs, bin, ActivateFile, tools.activateScript(dir))
    case Failure(e) => Outcome(fs, Failure(e))
    case Success(fs2) =>
      OnlyAtKept(fs, fs2, ak);
      match WriteInDir(fs2, bin, ExecuteFile, tools.executeScript(dir))
      case Failure(e) => Outcome(fs2, Failure(e))
      case Success(fs3) =>
        ConfinedTrans(fs, fs2, fs3, binKey);
        OnlyAtKept(fs2, fs3, ek);
        KeptTrans(fs, fs2, fs3);
        KeptAt(fs2, fs3, ek, ak);
        Outcome(fs3, Success(()))
  }

  /** The scripts step succeeds exactly when both scripts can be written. */
  lemma ScriptsSucceed(fs: FS, dir: Path, tools: Tools)
    requires WF(fs)
    ensures Scripts(fs, dir, tools).result.Success? <==> ScriptsReady(fs, dir)
  {
    ChildParent(fs, dir, BinDirName);
    var made := MkDir(fs, Child(dir, BinDirName), true);
    if made.Success? {
      var fs1 := made.value;
      assert Scripts(fs, dir, tools).result == WriteScripts(fs1, dir, tools).result;
      BinDirMade(fs, fs1, dir);
      WriteScriptsSucceed(fs1, dir, tools);
    }
  }

  /** Making the scripts directory leaves whether either script is a
      directory as it was. */
  lemma BinDirMade(fs: FS, fs1: FS, dir: Path)
    requires WF(fs) && MkDir(fs, Child(dir, BinDirName), true) == Success(fs1)
    ensures IsDir(fs1, Child(Child(dir, BinDirName), ActivateFile)) == IsDir(fs, Child(Child(dir, BinDirName), ActivateFile))
    ensures IsDir(fs1, Child(Child(dir, BinDirName), ExecuteFile)) == IsDir(fs, Child(Child(dir, BinDirName), ExecuteFile))
  {
    MetaKeys(fs, fs, dir);
    MetaKeys(fs, fs1, dir);
    var binKey, ak, ek := KeyOf(fs, dir) + [BinDirName], KeyOf(fs, dir) + [BinDirName, ActivateFile], KeyOf(fs, dir) + [BinDirName, ExecuteFile];
    assert |ak| != |binKey| && |ek| != |binKey|;
    SameAt(fs, fs1, binKey, ak);
    SameAt(fs, fs1, binKey, ek);
  }

  /** Once the scripts directory exists, both scripts are written exactly
      when neither is a directory. */
  lemma WriteScriptsSucceed(fs: FS, dir: Path, tools: Tools)
    requires WF(fs) && IsDir(fs, Child(dir, BinDirName))
    ensures WriteScripts(fs, dir, tools).result.Success? <==>
      !IsDir(fs, Child(Child(dir, BinDirName), ActivateFile)) && !IsDir(fs, Child(Child(dir, BinDirName), ExecuteFile))
  {
    var bin := Child(dir, BinDirName);
    MetaKeys(fs, fs, dir);
    var binKey, ak, ek := KeyOf(fs, dir) + [BinDirName], KeyOf(fs, dir) + [BinDirName, ActivateFile], KeyOf(fs, dir) + [BinDirName, ExecuteFile];
    assert ak[|binKey|] != ek[|binKey|];
    var first := WriteInDir(fs, bin, ActivateFile, tools.activateScript(dir));
    if first.Success? {
      MetaKeys(fs, first.value, dir);
      SameAt(fs, first.value, ak, ek);
    }
  }

  /** Writes the file `name` of the directory `d`: only that entry changes. */
  function WriteInDir(fs: FS, d: Path, name: string, text: string): (r: Result<FS, Exc>)
    requires WF(fs) && IsDir(fs, d) && name != ""
    ensures r.Success? <==> !IsDir(fs, Child(d, name))
    ensures r.Success? ==>
      && WF(r.value) && r.value.cwd == fs.cwd && IsDir(r.value, d)
      && OnlyAt(fs, r.value, KeyOf(fs, d) + [name])
      && Confined(fs, r.value, KeyOf(fs, d))
      && KeyOf(fs, d) + [name] in r.value.nodes && r.value.nodes[KeyOf(fs, d) + [name]] == File(text)
  {
    var k := KeyOf(fs, d) + [name];
    assert KeyOf(fs, Child(d, name)) == k;
    assert Parent(k) == KeyOf(fs, d);
    var r := WriteText(fs, Child(d, name), text);
    if r.Success? then
      assert k[..|KeyOf(fs, d)|] == KeyOf(fs, d);
      ConfinedStep(fs, r.value, k, KeyOf(fs, d));
      KeptAt(fs, r.value, k, KeyOf(fs, d));
      r
    else r
  }

  lemma ConfinedStep(before: FS, after: FS, at: Key, d: Key)
    requires OnlyAt(before, after, at)
    requires at == d || Below(at, d)
    ensures Confined(before, after, d)
  {
  }

  lemma ConfinedTrans(a: FS, b: FS, c: FS, d: Key)
    requires Confined(a, b, d) && Confined(b, c, d)
    ensures Confined(a, c, d)
  {
  }

  /** A change confined to `d + [name]` is confined to `d`. */
  lemma ConfinedWiden(before: FS, after: FS, d: Key, name: string)
    requires Confined(before, after, d + [name])
    ensures Confined(before, after, d)
  {
    var dn := d + [name];
    forall k | Below(k, dn) ensures Below(k, d) {
      assert k[..|d|] == k[..|dn|][..|d|];
    }
  }

  /** An entry outside `d` is the same before and after a change confined
      to `d`. */
  lemma SameOutside(before: FS, after: FS, d: Key, k: Key)
    requires Confined(before, after, d) && k != d && !Below(k, d)
    ensures k in after.nodes <==> k in before.nodes
    ensures k in before.nodes ==> after.nodes[k] == before.nodes[k]
  {
  }

  /** `_snapshot_meta`: the metadata files, then the scripts. */
  function SnapshotMeta(fs: FS, cfg: SnapshotConfig, pipDeps: Result<seq<Dependency>, Exc>, dir: Path, tools: Tools)
    : (r: Outcome<()>)
    requires WF(fs)
    ensures WF(r.fs) && r.fs.cwd == fs.cwd && Kept(fs, r.fs)
    ensures Confined(fs, r.fs, KeyOf(fs, dir))
    ensures MetaFiles(fs, cfg, pipDeps, dir, tools).result.Failure? ==> r == MetaFiles(fs, cfg, pipDeps, dir, tools)
    ensures r.result.Success? ==>
      && MetaWritten(fs, r.fs, dir, cfg, pipDeps.value, tools)
      && ScriptsWritten(fs, r.fs, dir, tools)
  {
    var k := KeyOf(fs, dir);
    var files := MetaFiles(fs, cfg, pipDeps, dir, tools);
    ConfinedWiden(fs, files.fs, k, MetaDirName);
    if files.result.Failure? then files
    else
      var r := Scripts(files.fs, dir, tools);
      assert KeyOf(files.fs, dir) == k;
      ConfinedWiden(files.fs, r.fs, k, BinDirName);
      ConfinedTrans(fs, files.fs, r.fs, k);
      KeptTrans(fs, files.fs, r.fs);
      if r.result.Success? then
        MetaWrittenOutside(fs, files.fs, r.fs, dir, cfg, pipDeps.value, tools);
        r
      else r
  }

  /** `_snapshot_meta` succeeds exactly when every metadata step and both
      scripts can be done in `fs`. */
  lemma SnapshotMetaSucceeds(fs: FS, cfg: SnapshotConfig, pipDeps: Result<seq<Dependency>, Exc>, dir: Path, tools: Tools)
    requires WF(fs)
    ensures SnapshotMeta(fs, cfg, pipDeps, dir, tools).result.Success? <==> MetaReady(fs, dir, pipDeps) && ScriptsReady(fs, dir)
  {
    var files := MetaFiles(fs, cfg, pipDeps, dir, tools);
    MetaFilesSucceed(fs, cfg, pipDeps, dir, tools);
    if files.result.Success? {
      ScriptsReadyOutside(fs, files.fs, dir);
      ScriptsSucceed(files.fs, dir, tools);
    }
  }

  /** The metadata steps, confined to the metadata directory, do not
      change whether the scripts can be written. */
  lemma ScriptsReadyOutside(fs: FS, fs': FS, dir: Path)
    requires fs'.cwd == fs.cwd && Confined(fs, fs', KeyOf(fs, dir) + [MetaDirName])
    ensures ScriptsReady(fs', dir) <==> ScriptsReady(fs, dir)
  {
    var k := KeyOf(fs, dir);
    var dk := k + [MetaDirName];
    MetaKeys(fs, fs', dir);
    MetaKeys(fs, fs, dir);
    assert KeyOf(fs', dir) == k && |k| < |dk|;
    SameOutside(fs, fs', dk, k);
    Apart(k, [BinDirName], MetaDirName);
    SameOutside(fs, fs', dk, k + [BinDirName]);
    Apart(k, [BinDirName, ActivateFile], MetaDirName);
    SameOutside(fs, fs', dk, k + [BinDirName, ActivateFile]);
    Apart(k, [BinDirName, ExecuteFile], MetaDirName);
    SameOutside(fs, fs', dk, k + [BinDirName, ExecuteFile]);
  }

  /** The scripts step, which touches nothing outside the scripts
      directory, leaves the metadata as it found it. */
  lemma MetaWrittenOutside(fs: FS, mid: FS, after: FS, dir: Path, cfg: SnapshotConfig, deps: seq<Dependency>, tools: Tools)
    requires MetaWritten(fs, mid, dir, cfg, deps, tools) && mid.cwd == fs.cwd && after.cwd == fs.cwd
    requires KeptOutside(mid, after, KeyOf(mid, dir) + [BinDirName])
    ensures MetaWritten(fs, after, dir, cfg, deps, tools)
  {
    var k := KeyOf(fs, dir);
    assert KeyOf(mid, dir) == k;
    MetaKeys(fs, mid, dir);
    MetaKeys(fs, after, dir);
    Apart(k, [MetaDirName], BinDirName);
    Apart(k, [MetaDirName, ConfigFile], BinDirName);
    Apart(k, [MetaDirName, MetaFile], BinDirName);
    Apart(k, [MetaDirName, RequirementsFile], BinDirName);
    assert IsDir(after, Child(dir, MetaDirName));
    assert FreezeSaved(fs, after, dir, tools.pipFreeze);
  }

  /** An entry below `k` whose first part is not `name` is neither
      `k + [name]` nor below it. */
  lemma Apart(k: Key, rest: seq<string>, name: string)
    requires |rest| > 0 && rest[0] != name
    ensures k + rest != k + [name] && !Below(k + rest, k + [name])
  {
    assert (k + rest)[|k|] == rest[0] != (k + [name])[|k|];
    if |k + rest| > |k| + 1 {
      assert (k + rest)[..|k| + 1][|k|] == (k + rest)[|k|];
    }
  }

  /** Where a child of `d` points, and that `d` is its parent. */
  lemma ChildParent(fs: FS, d: Path, name: string)
    requires name != ""
    ensures KeyOf(fs, Child(d, name)) == KeyOf(fs, d) + [name]
    ensures Parent(KeyOf(fs, Child(d, name))) == KeyOf(fs, d)
  {
    assert (KeyOf(fs, d) + [name])[..|KeyOf(fs, d)|] == KeyOf(fs, d);
  }

  lemma MetaKeys(fs: FS, fs': FS, dir: Path)
    requires fs.cwd == fs'.cwd
    ensures KeyOf(fs', Child(Child(dir, MetaDirName), ConfigFile)) == KeyOf(fs, dir) + [MetaDirName, ConfigFile]
    ensures KeyOf(fs', Child(Child(dir, MetaDirName), MetaFile)) == KeyOf(fs, dir) + [MetaDirName, MetaFile]
    ensures KeyOf(fs', Child(Child(dir, MetaDirName), RequirementsFile)) == KeyOf(fs, dir) + [MetaDirName, RequirementsFile]
    ensures KeyOf(fs', Child(dir, MetaDirName)) == KeyOf(fs, dir) + [MetaDirName]
    ensures KeyOf(fs', Child(Child(dir, BinDirName), ActivateFile)) == KeyOf(fs, dir) + [BinDirName, ActivateFile]
    ensures KeyOf(fs', Child(Child(dir, BinDirName), ExecuteFile)) == KeyOf(fs, dir) + [BinDirName, ExecuteFile]
    ensures KeyOf(fs', Child(dir, BinDirName)) == KeyOf(fs, dir) + [BinDirName]
  {
  }

  /** `_snapshot`: check the tools, resolve the directory, resolve the
      modules, git-ignore the directory, write the metadata, copy the
      modules; the first exception ends it, keeping earlier effects. */
  function TakeSnapshot(cfg: SnapshotConfig, fs: FS, env: Environment, tools: Tools, home: Path, id: string)
    : (r: Outcome<SnapshotInfo>)
    requires WF(fs) && Sane(tools)
    ensures WF(r.fs)
    ensures !tools.hasGit ==> r == Outcome(fs, Failure(ToolMissing("git")))
    ensures tools.hasGit && !tools.hasRsync ==> r == Outcome(fs, Failure(ToolMissing("rsync")))
    ensures Kept(fs, r.fs)
    ensures r.result.Success? ==> ResolveModules(cfg, env).Success? && r.result.value.modules == ResolveModules(cfg, env).value
    ensures r.result.Success? ==>
      && r.result.value.snapshotDir == Absolute(fs.cwd, SnapshotTarget(cfg, home, id))
      && LaidOut(fs, r.fs, SnapshotTarget(cfg, home, id))
    ensures r.result.Success? ==> forall i :: 0 <= i < |r.result.value.modules| ==>
      && !env.findSpec(r.result.value.modules[i]).Raised?
      && (cfg.onModuleNotFound == Raise ==> env.findSpec(r.result.value.modules[i]).Found?)
      && (env.findSpec(r.result.value.modules[i]).Found? ==>
            PackagesMade(r.fs, SnapshotTarget(cfg, home, id), r.result.value.modules[i]))
  {
    if !tools.hasGit then Outcome(fs, Failure(ToolMissing("git")))
    else if !tools.hasRsync then Outcome(fs, Failure(ToolMissing("rsync")))
    else
      var resolved := ResolveSnapshotDir(cfg, fs, home, id);
      match resolved.result
      case Failure(e) => Outcome(resolved.fs, Failure(e))
      case Success(dir) =>
        assert dir == SnapshotTarget(cfg, home, id);
        var r := SnapshotInto(cfg, resolved.fs, env, tools, dir);
        KeptTrans(fs, resolved.fs, r.fs);
        assert KeyOf(resolved.fs, dir) == KeyOf(fs, dir);
        r
  }

  /** The steps of `_snapshot` once the directory `dir` is resolved:
      resolve the modules, git-ignore the directory and write the metadata,
      copy the modules. */
  function SnapshotInto(cfg: SnapshotConfig, fs: FS, env: Environment, tools: Tools, dir: Path)
    : (r: Outcome<SnapshotInfo>)
    requires WF(fs) && Sane(tools)
    ensures WF(r.fs) && Kept(fs, r.fs)
    ensures r.result.Success? ==> ResolveModules(cfg, env).Success? && r.result.value.modules == ResolveModules(cfg, env).value
    ensures r.result.Success? ==> r.result.value.snapshotDir == Absolute(fs.cwd, dir) && LaidOut(fs, r.fs, dir)
    ensures r.result.Success? ==> forall i :: 0 <= i < |r.result.value.modules| ==>
      && !env.findSpec(r.result.value.modules[i]).Raised?
      && (cfg.onModuleNotFound == Raise ==> env.findSpec(r.result.value.modules[i]).Found?)
      && (env.findSpec(r.result.value.modules[i]).Found? ==> PackagesMade(r.fs, dir, r.result.value.modules[i]))
  {
    var modules := ResolveModules(cfg, env);
    if modules.Failure? then Outcome(fs, Failure(modules.error))
    else
      var prep := Prepare(fs, cfg, CurrentPipDependencies(env.pipList), dir, tools);
      if prep.result.Failure? then Outcome(prep.fs, Failure(prep.result.error))
      else
        var r := SnapshotModules(prep.fs, dir, modules.value, cfg.onModuleNotFound, env.findSpec, tools);
        KeptTrans(fs, prep.fs, r.fs);
        if r.result.Success? then
          LaidOutKept(fs, prep.fs, r.fs, dir);
          r
        else r
  }

  /** Once the directory is resolved, the rest succeeds exactly when every
      step does: the modules resolve, the preparation works and every
      module is moved. */
  lemma SnapshotIntoSteps(cfg: SnapshotConfig, fs: FS, env: Environment, tools: Tools, dir: Path)
    requires WF(fs) && Sane(tools)
    ensures SnapshotInto(cfg, fs, env, tools, dir).result.Success? <==>
      && ResolveModules(cfg, env).Success?
      && var prep := Prepare(fs, cfg, CurrentPipDependencies(env.pipList), dir, tools);
        && prep.result.Success?
        && SnapshotModules(prep.fs, dir, ResolveModules(cfg, env).value, cfg.onModuleNotFound, env.findSpec, tools).result.Success?
  {
  }

  /** A snapshot succeeds exactly when both tools are there, the directory
      resolves to its target and the steps after that succeed. */
  lemma TakeSnapshotSteps(cfg: SnapshotConfig, fs: FS, env: Environment, tools: Tools, home: Path, id: string)
    requires WF(fs) && Sane(tools)
    ensures var resolved := ResolveSnapshotDir(cfg, fs, home, id);
      TakeSnapshot(cfg, fs, env, tools, home, id).result.Success? <==>
        && tools.hasGit && tools.hasRsync
        && resolved.result == Success(SnapshotTarget(cfg, home, id))
        && SnapshotInto(cfg, resolved.fs, env, tools, SnapshotTarget(cfg, home, id)).result.Success?
  {
    if tools.hasGit && tools.hasRsync {
      ResolvedDir(cfg, fs, home, id);
    }
  }

  /** A successful snapshot had both tools, a module list, a clear way to
      the directory, nothing in the way of the layout, and a working
      `pip list`. */
  lemma TakeSnapshotNeeds(cfg: SnapshotConfig, fs: FS, env: Environment, tools: Tools, home: Path, id: string)
    requires WF(fs) && Sane(tools)
    requires TakeSnapshot(cfg, fs, env, tools, home, id).result.Success?
    ensures tools.hasGit && tools.hasRsync && ResolveModules(cfg, env).Success?
    ensures NoFileOnWay(fs.nodes, KeyOf(fs, SnapshotTarget(cfg, home, id)))
    ensures LayoutFits(fs, SnapshotTarget(cfg, home, id))
    ensures CurrentPipDependencies(env.pipList).Success?
  {
    var target := SnapshotTarget(cfg, home, id);
    var resolved := ResolveSnapshotDir(cfg, fs, home, id);
    TakeSnapshotSteps(cfg, fs, env, tools, home, id);
    SnapshotIntoSteps(cfg, resolved.fs, env, tools, target);
    ResolvedDir(cfg, fs, home, id);
    PrepareSucceeds(resolved.fs, cfg, CurrentPipDependencies(env.pipList), target, tools);
  }

  /** With working tools and top-level modules whose locations lie outside
      the snapshot directory, a snapshot succeeds when both tools are there,
      the modules resolve, the way to the directory is clear, nothing is in
      the way of the layout, `pip list` works and every lookup lets its
      module through. */
  lemma TakeSnapshotSucceeds(cfg: SnapshotConfig, fs: FS, env: Environment, tools: Tools, home: Path, id: string)
    requires WF(fs) && Sane(tools) && ToolsWork(tools) && tools.hasGit && tools.hasRsync
    requires ResolveModules(cfg, env).Success?
    requires AllAway(fs, SnapshotTarget(cfg, home, id), ResolveModules(cfg, env).value, env.findSpec)
    requires NoFileOnWay(fs.nodes, KeyOf(fs, SnapshotTarget(cfg, home, id)))
    requires LayoutFits(fs, SnapshotTarget(cfg, home, id))
    requires CurrentPipDependencies(env.pipList).Success?
    requires AllFit(fs, ResolveModules(cfg, env).value, cfg.onModuleNotFound, env.findSpec)
    ensures TakeSnapshot(cfg, fs, env, tools, home, id).result.Success?
  {
    var target := SnapshotTarget(cfg, home, id);
    var modules := ResolveModules(cfg, env).value;
    var pipDeps := CurrentPipDependencies(env.pipList);
    var resolved := ResolveSnapshotDir(cfg, fs, home, id);
    ResolvedDir(cfg, fs, home, id);
    PrepareSucceeds(resolved.fs, cfg, pipDeps, target, tools);
    var prep := Prepare(resolved.fs, cfg, pipDeps, target, tools);
    FitsAfterPrepare(fs, resolved.fs, prep.fs, target, modules, cfg.onModuleNotFound, env.findSpec);
    TopLevelLoop(prep.fs, target, modules, cfg.onModuleNotFound, env.findSpec, tools);
    SnapshotIntoSteps(cfg, resolved.fs, env, tools, target);
    TakeSnapshotSteps(cfg, fs, env, tools, home, id);
  }

  /** Resolving the directory: a configured one is taken as it is; the
      default one is made exactly when the way to it is clear, and then
      leaves both the way and the layout as they were. */
  lemma ResolvedDir(cfg: SnapshotConfig, fs: FS, home: Path, id: string)
    requires WF(fs)
    ensures var resolved := ResolveSnapshotDir(cfg, fs, home, id);
      var target := SnapshotTarget(cfg, home, id);
      && (resolved.result.Success? <==> cfg.snapshotDir.Some? || NoFileOnWay(fs.nodes, KeyOf(fs, target)))
      && (resolved.result.Success? ==>
        && resolved.result.value == target
        && Grows(fs, resolved.fs)
        && (forall k :: k in resolved.fs.nodes && k !in fs.nodes ==>
              k == KeyOf(fs, GitignoreOf(target)) || (|k| <= |KeyOf(fs, target)| && k == KeyOf(fs, target)[..|k|]))
        && (NoFileOnWay(resolved.fs.nodes, KeyOf(fs, target)) <==> NoFileOnWay(fs.nodes, KeyOf(fs, target)))
        && (LayoutFits(resolved.fs, target) <==> LayoutFits(fs, target)))
  {
    if cfg.snapshotDir.None? {
      DefaultDirResolved(fs, home, id);
    }
  }

  /** The default directory, once made, leaves the way to it clear and
      the layout inside it as it was. */
  lemma DefaultDirResolved(fs: FS, home: Path, id: string)
    requires WF(fs)
    ensures var made := DefaultSnapshotDir(fs, home, id);
      var target := Child(ChildAll(home, SnapshotsBelowHome), id);
      made.result.Success? ==>
        && NoFileOnWay(made.fs.nodes, KeyOf(fs, target))
        && (LayoutFits(made.fs, target) <==> LayoutFits(fs, target))
        && forall k :: k in made.fs.nodes && k !in fs.nodes ==>
             k == KeyOf(fs, GitignoreOf(target)) || (|k| <= |KeyOf(fs, target)| && k == KeyOf(fs, target)[..|k|])
  {
    var made := DefaultSnapshotDir(fs, home, id);
    var target := Child(ChildAll(home, SnapshotsBelowHome), id);
    if made.result.Success? {
      DefaultSnapshotDirAdds(fs, home, id);
      assert KeyOf(made.fs, target) == KeyOf(fs, target);
      AncestorsAreDirs(made.fs, KeyOf(fs, target));
      LayoutKept(fs, made.fs, target);
    }
  }

  /** A step that adds only the directories on the way to `dir` and its
      `.gitignore` leaves the layout inside `dir` as it was. */
  lemma LayoutKept(fs: FS, ig: FS, dir: Path)
    requires Grows(fs, ig)
    requires forall k :: k in ig.nodes && k !in fs.nodes ==>
      k == KeyOf(fs, GitignoreOf(dir)) || (|k| <= |KeyOf(fs, dir)| && k == KeyOf(fs, dir)[..|k|])
    ensures LayoutFits(ig, dir) <==> LayoutFits(fs, dir)
  {
    MetaLayoutKept(fs, ig, dir);
    ScriptsLayoutKept(fs, ig, dir);
  }

  /** The metadata half of `LayoutKept`. */
  lemma MetaLayoutKept(fs: FS, ig: FS, dir: Path)
    requires Grows(fs, ig)
    requires forall k :: k in ig.nodes && k !in fs.nodes ==>
      k == KeyOf(fs, GitignoreOf(dir)) || (|k| <= |KeyOf(fs, dir)| && k == KeyOf(fs, dir)[..|k|])
    ensures IsFile(ig, Child(dir, MetaDirName)) == IsFile(fs, Child(dir, MetaDirName))
    ensures IsDir(ig, Child(Child(dir, MetaDirName), ConfigFile)) == IsDir(fs, Child(Child(dir, MetaDirName), ConfigFile))
    ensures IsDir(ig, Child(Child(dir, MetaDirName), MetaFile)) == IsDir(fs, Child(Child(dir, MetaDirName), MetaFile))
  {
    var k := KeyOf(fs, dir);
    MetaKeys(fs, ig, dir);
    MetaKeys(fs, fs, dir);
    GitignoreKey(fs, fs, dir);
    IgnoreLeaves(fs, ig, k, [MetaDirName]);
    IgnoreLeaves(fs, ig, k, [MetaDirName, ConfigFile]);
    IgnoreLeaves(fs, ig, k, [MetaDirName, MetaFile]);
  }

  /** The scripts half of `LayoutKept`. */
  lemma ScriptsLayoutKept(fs: FS, ig: FS, dir: Path)
    requires Grows(fs, ig)
    requires forall k :: k in ig.nodes && k !in fs.nodes ==>
      k == KeyOf(fs, GitignoreOf(dir)) || (|k| <= |KeyOf(fs, dir)| && k == KeyOf(fs, dir)[..|k|])
    ensures IsFile(ig, Child(dir, BinDirName)) == IsFile(fs, Child(dir, BinDirName))
    ensures IsDir(ig, Child(Child(dir, BinDirName), ActivateFile)) == IsDir(fs, Child(Child(dir, BinDirName), ActivateFile))
    ensures IsDir(ig, Child(Child(dir, BinDirName), ExecuteFile)) == IsDir(fs, Child(Child(dir, BinDirName), ExecuteFile))
  {
    var k := KeyOf(fs, dir);
    MetaKeys(fs, ig, dir);
    MetaKeys(fs, fs, dir);
    GitignoreKey(fs, fs, dir);
    IgnoreLeaves(fs, ig, k, [BinDirName]);
    IgnoreLeaves(fs, ig, k, [BinDirName, ActivateFile]);
    IgnoreLeaves(fs, ig, k, [BinDirName, ExecuteFile]);
  }

  /** Resolving the directory (which only grows the filesystem) and then
      preparing it (which changes nothing outside it and leaves it a
      directory) keeps every lookup whose location lies outside it fitting. */
  lemma FitsAfterPrepare(fs: FS, mid: FS, after: FS, dir: Path, modules: seq<string>, policy: Policy,
                         findSpec: string -> SpecLookup)
    requires Grows(fs, mid) && mid.cwd == after.cwd
    requires KeptOutside(mid, after, KeyOf(mid, dir)) && IsDir(after, dir)
    requires AllAway(fs, dir, modules, findSpec) && AllFit(fs, modules, policy, findSpec)
    ensures AllAway(after, dir, modules, findSpec) && AllFit(after, modules, policy, findSpec)
  {
    forall i | 0 <= i < |modules|
      ensures TurnFits(after, modules[i], policy, findSpec)
    {
      var name := modules[i];
      assert TurnFits(fs, name, policy, findSpec) && Away(fs, dir, name, findSpec);
      if findSpec(name).Found? {
        var location := findSpec(name).locations[0];
        assert KeyOf(after, location) == KeyOf(mid, location) == KeyOf(fs, location);
      }
    }
  }

  /** Where the snapshot goes: the configured directory, or the fresh
      default one below the home directory. */
  function SnapshotTarget(cfg: SnapshotConfig, home: Path, id: string): Path
  {
    if cfg.snapshotDir.Some? then cfg.snapshotDir.value else Child(ChildAll(home, SnapshotsBelowHome), id)
  }

  /** The layout `_snapshot` leaves in the snapshot directory `d` (located
      from `before`'s working directory): a directory with its
      `.gitignore`, the configuration and metadata files and the two
      scripts. */
  ghost predicate LaidOut(before: FS, after: FS, d: Path)
  {
    var k := KeyOf(before, d);
    && IsDir(after, d) && Exists(after, GitignoreOf(d))
    && k + [MetaDirName, ConfigFile] in after.nodes
    && k + [MetaDirName, MetaFile] in after.nodes
    && k + [BinDirName, ActivateFile] in after.nodes
    && k + [BinDirName, ExecuteFile] in after.nodes
  }

  /** A later step that removes nothing keeps the layout: the `.gitignore`
      keeps its directory a directory. */
  lemma LaidOutKept(fs: FS, mid: FS, after: FS, d: Path)
    requires LaidOut(fs, mid, d) && fs.cwd == mid.cwd && Kept(mid, after) && WF(after)
    ensures LaidOut(fs, after, d)
  {
    IgnoredKept(mid, after, d);
  }

  /** A `.gitignore` that stays keeps its directory a directory. */
  lemma IgnoredKept(mid: FS, after: FS, d: Path)
    requires Exists(mid, GitignoreOf(d)) && Kept(mid, after) && WF(after)
    ensures IsDir(after, d) && Exists(after, GitignoreOf(d))
  {
    GitignoreKey(mid, after, d);
    assert Parent(KeyOf(after, d) + [GitignoreName]) == KeyOf(after, d);
  }

  /** Nothing in the way of the snapshot layout inside `dir`: the
      metadata and scripts directories are not files, and none of the
      files written into them is a directory. */
  predicate LayoutFits(fs: FS, dir: Path)
  {
    && !IsFile(fs, Child(dir, MetaDirName))
    && !IsDir(fs, Child(Child(dir, MetaDirName), ConfigFile))
    && !IsDir(fs, Child(Child(dir, MetaDirName), MetaFile))
    && !IsFile(fs, Child(dir, BinDirName))
    && !IsDir(fs, Child(Child(dir, BinDirName), ActivateFile))
    && !IsDir(fs, Child(Child(dir, BinDirName), ExecuteFile))
  }

  /** The steps of `_snapshot` between resolving and copying: git-ignore
      the directory, then write the metadata; nothing outside the directory
      changes. */
  function Prepare(fs: FS, cfg: SnapshotConfig, pipDeps: Result<seq<Dependency>, Exc>, dir: Path, tools: Tools)
    : (r: Outcome<()>)
    requires WF(fs)
    ensures WF(r.fs) && Kept(fs, r.fs)
    ensures KeptOutside(fs, r.fs, KeyOf(fs, dir))
    ensures GitignoredDir(fs, dir, true).Failure? ==> r == Outcome(fs, Failure(GitignoredDir(fs, dir, true).error))
    ensures GitignoredDir(fs, dir, true).Success? ==>
      r == SnapshotMeta(GitignoredDir(fs, dir, true).value.1, cfg, pipDeps, dir, tools)
    ensures r.result.Success? ==> LaidOut(fs, r.fs, dir)
  {
    match GitignoredDir(fs, dir, true)
    case Failure(e) => Outcome(fs, Failure(e))
    case Success(ignored) =>
      var ig := ignored.1;
      assert ig.cwd == fs.cwd && Kept(fs, ig);
      var r := SnapshotMeta(ig, cfg, pipDeps, dir, tools);
      KeptTrans(fs, ig, r.fs);
      assert KeyOf(ig, dir) == KeyOf(fs, dir);
      if r.result.Success? then
        IgnoredKept(ig, r.fs, dir);
        r
      else r
  }

  /** The steps between resolving and copying succeed exactly when nothing
      on the way to the directory is a file, nothing is in the way of the
      layout and `pip list` works. */
  lemma PrepareSucceeds(fs: FS, cfg: SnapshotConfig, pipDeps: Result<seq<Dependency>, Exc>, dir: Path, tools: Tools)
    requires WF(fs)
    ensures Prepare(fs, cfg, pipDeps, dir, tools).result.Success? <==>
      NoFileOnWay(fs.nodes, KeyOf(fs, dir)) && LayoutFits(fs, dir) && pipDeps.Success?
  {
    var ignored := GitignoredDir(fs, dir, true);
    if ignored.Success? {
      var ig := ignored.value.1;
      ReadyAfterIgnore(fs, ig, dir, pipDeps);
      SnapshotMetaSucceeds(ig, cfg, pipDeps, dir, tools);
    }
  }

  /** Git-ignoring the directory, which adds only the directories on the
      way to it and its `.gitignore`, leaves the rest of the layout as it
      was. */
  lemma ReadyAfterIgnore(fs: FS, ig: FS, dir: Path, pipDeps: Result<seq<Dependency>, Exc>)
    requires Grows(fs, ig) && IsDir(ig, dir)
    requires forall k :: k in ig.nodes && k !in fs.nodes ==>
      k == KeyOf(fs, GitignoreOf(dir)) || (|k| <= |KeyOf(fs, dir)| && k == KeyOf(fs, dir)[..|k|])
    ensures MetaReady(ig, dir, pipDeps) && ScriptsReady(ig, dir) <==>
      LayoutFits(fs, dir) && pipDeps.Success?
  {
    MetaAfterIgnore(fs, ig, dir);
    ScriptsAfterIgnore(fs, ig, dir);
  }

  /** The metadata half of `ReadyAfterIgnore`. */
  lemma MetaAfterIgnore(fs: FS, ig: FS, dir: Path)
    requires Grows(fs, ig) && IsDir(ig, dir)
    requires forall k :: k in ig.nodes && k !in fs.nodes ==>
      k == KeyOf(fs, GitignoreOf(dir)) || (|k| <= |KeyOf(fs, dir)| && k == KeyOf(fs, dir)[..|k|])
    ensures DirCanBeMade(ig, dir, MetaDirName) <==> !IsFile(fs, Child(dir, MetaDirName))
    ensures IsDir(ig, Child(Child(dir, MetaDirName), ConfigFile)) == IsDir(fs, Child(Child(dir, MetaDirName), ConfigFile))
    ensures IsDir(ig, Child(Child(dir, MetaDirName), MetaFile)) == IsDir(fs, Child(Child(dir, MetaDirName), MetaFile))
  {
    var k := KeyOf(fs, dir);
    MetaKeys(fs, ig, dir);
    MetaKeys(fs, fs, dir);
    GitignoreKey(fs, fs, dir);
    IgnoreLeaves(fs, ig, k, [MetaDirName]);
    IgnoreLeaves(fs, ig, k, [MetaDirName, ConfigFile]);
    IgnoreLeaves(fs, ig, k, [MetaDirName, MetaFile]);
  }

  /** The scripts half of `ReadyAfterIgnore`. */
  lemma ScriptsAfterIgnore(fs: FS, ig: FS, dir: Path)
    requires Grows(fs, ig) && IsDir(ig, dir)
    requires forall k :: k in ig.nodes && k !in fs.nodes ==>
      k == KeyOf(fs, GitignoreOf(dir)) || (|k| <= |KeyOf(fs, dir)| && k == KeyOf(fs, dir)[..|k|])
    ensures DirCanBeMade(ig, dir, BinDirName) <==> !IsFile(fs, Child(dir, BinDirName))
    ensures IsDir(ig, Child(Child(dir, BinDirName), ActivateFile)) == IsDir(fs, Child(Child(dir, BinDirName), ActivateFile))
    ensures IsDir(ig, Child(Child(dir, BinDirName), ExecuteFile)) == IsDir(fs, Child(Child(dir, BinDirName), ExecuteFile))
  {
    var k := KeyOf(fs, dir);
    MetaKeys(fs, ig, dir);
    MetaKeys(fs, fs, dir);
    GitignoreKey(fs, fs, dir);
    IgnoreLeaves(fs, ig, k, [BinDirName]);
    IgnoreLeaves(fs, ig, k, [BinDirName, ActivateFile]);
    IgnoreLeaves(fs, ig, k, [BinDirName, ExecuteFile]);
  }

  /** An entry below the directory other than its `.gitignore` is not
      added by git-ignoring the directory. */
  lemma IgnoreLeaves(fs: FS, ig: FS, k: Key, rest: seq<string>)
    requires Grows(fs, ig) && |rest| > 0 && rest[0] != GitignoreName
    requires forall x :: x in ig.nodes && x !in fs.nodes ==> x == k + [GitignoreName] || (|x| <= |k| && x == k[..|x|])
    ensures k + rest in ig.nodes <==> k + rest in fs.nodes
    ensures k + rest in fs.nodes ==> ig.nodes[k + rest] == fs.nodes[k + rest]
  {
    Apart(k, rest, GitignoreName);
  }

  /** The directory is resolved before the modules: when the module list
      cannot be built, a configured directory is left untouched, while a
      default one has already been made. */
  lemma DirectoryBeforeModules(cfg: SnapshotConfig, fs: FS, env: Environment, tools: Tools, home: Path, id: string)
    requires WF(fs) && Sane(tools) && tools.hasGit && tools.hasRsync
    requires ResolveModules(cfg, env).Failure?
    ensures cfg.snapshotDir.Some? ==>
      TakeSnapshot(cfg, fs, env, tools, home, id) == Outcome(fs, Failure(ResolveModules(cfg, env).error))
    ensures cfg.snapshotDir.None? && DefaultSnapshotDir(fs, home, id).result.Success? ==>
      var made := DefaultSnapshotDir(fs, home, id);
      TakeSnapshot(cfg, fs, env, tools, home, id) == Outcome(made.fs, Failure(ResolveModules(cfg, env).error))
      && IsDir(made.fs, made.result.value)
  {
  }

  /** The metadata is written before any module is looked up: even when
      the first module fails, the configuration is on disk. */
  lemma MetadataBeforeModules(cfg: SnapshotConfig, fs: FS, env: Environment, tools: Tools, home: Path, id: string)
    requires WF(fs) && Sane(tools) && tools.hasGit && tools.hasRsync
    requires cfg.snapshotDir.Some? && ResolveModules(cfg, env).Success?
    requires GitignoredDir(fs, cfg.snapshotDir.value, true).Success?
    requires var m := ResolveModules(cfg, env).value; |m| > 0 && env.findSpec(m[0]).Raised?
    ensures var fs1 := GitignoredDir(fs, cfg.snapshotDir.value, true).value.1;
      var meta := SnapshotMeta(fs1, cfg, CurrentPipDependencies(env.pipList), cfg.snapshotDir.value, tools);
      meta.result.Success? ==>
        TakeSnapshot(cfg, fs, env, tools, home, id)
        == Outcome(meta.fs, Failure(LookupRaised(ResolveModules(cfg, env).value[0])))
  {
  }

  /** `snapshot()`: no configuration means the default one. */
  function TakeSnapshotOrDefault(cfg: Option<SnapshotConfig>, fs: FS, env: Environment, tools: Tools, home: Path, id: string)
    : (r: Outcome<SnapshotInfo>)
    requires WF(fs) && Sane(tools)
    ensures cfg.None? ==> r == TakeSnapshot(DefaultConfig, fs, env, tools, home, id)
    ensures cfg.Some? ==> r == TakeSnapshot(cfg.value, fs, env, tools, home, id)
  {
    TakeSnapshot(if cfg.Some? then cfg.value else DefaultConfig, fs, env, tools, home, id)
  }
}
