/** `SnapshotConfig` and the assembly of the module list
    (`src/nshsnap/_config.py`). */
module Config {
  import opened Wrappers
  import opened Sorting
  import opened Paths
  import opened Exceptions
  import opened FileSystem
  import opened Importlib
  import opened PipDeps
  import opened Util

  /** What to do about a module that cannot be found. */
  datatype Policy = Raise | Warn

  datatype SnapshotConfig = SnapshotConfig(
    snapshotDir: Option<Path>,
    modules: seq<string>,
    onModuleNotFound: Policy,
    editableModules: bool,
    gitReferences: map<string, string>)

  /** `SnapshotConfig()` with every field at its default. */
  const DefaultConfig: SnapshotConfig := SnapshotConfig(None, [], Warn, true, map[])

  /** The interpreter's answers and the output of `pip list --format=json`
      (`None` when the command fails). */
  datatype Environment = Environment(
    pipList: Option<seq<map<string, Json>>>,
    dist: string -> DistLookup,
    findSpec: string -> SpecLookup)

  /** All the members of all the lists, in order. */
  function Flatten(args: seq<seq<string>>): (r: seq<string>)
    ensures forall x :: x in r <==> exists i :: 0 <= i < |args| && x in args[i]
  {
    if |args| == 0 then []
    else
      var rest := Flatten(args[1..]);
      assert forall x :: (exists i :: 1 <= i < |args| && x in args[i]) <==> x in rest by {
        forall x | x in rest ensures exists i :: 1 <= i < |args| && x in args[i] {
          var i :| 0 <= i < |args[1..]| && x in args[1..][i];
          assert args[i + 1] == args[1..][i];
        }
      }
      args[0] + rest
  }

  /** `_merge_modules`: the union of the lists, each name once, sorted. */
  function MergeModules(args: seq<seq<string>>): (r: seq<string>)
    ensures StrictlySorted(r)
    ensures forall x :: x in r <==> exists i :: 0 <= i < |args| && x in args[i]
  {
    var r := SortedSet(Flatten(args));
    assert forall x :: x in r <==> x in Elems(r);
    r
  }

  /** Merging does not depend on the order of its arguments. */
  lemma MergeCommutes(a: seq<string>, b: seq<string>)
    ensures MergeModules([a, b]) == MergeModules([b, a])
  {
    var r, r' := MergeModules([a, b]), MergeModules([b, a]);
    assert Elems(r) == Elems(r') by {
      forall x ensures x in r <==> x in r' {
        assert x in r <==> x in a || x in b by {
          assert [a, b][0] == a && [a, b][1] == b;
        }
        assert x in r' <==> x in a || x in b by {
          assert [b, a][0] == b && [b, a][1] == a;
        }
      }
    }
    StrictlySortedUnique(r, r');
  }

  /** Merging an already merged list gives it back. */
  lemma MergeIdempotent(args: seq<seq<string>>)
    ensures MergeModules([MergeModules(args)]) == MergeModules(args)
  {
    var r := MergeModules(args);
    var r' := MergeModules([r]);
    assert Elems(r') == Elems(r) by {
      forall x ensures x in r' <==> x in r {
        assert [r][0] == r;
      }
    }
    StrictlySortedUnique(r', r);
  }

  /** The names one dependency contributes under `policy`: none for a
      regular one; its importable name, or (with none) an error or nothing,
      for an editable one. */
  function YieldOf(policy: Policy, d: Dependency, env: Environment): (r: Result<seq<string>, Exc>)
    ensures d.Regular? ==> r == Success([])
    ensures r.Success? ==> |r.value| <= 1
    ensures d.Editable? && ImportableModuleName(d.name, env.dist, env.findSpec) == Success(None) ==>
      r == (if policy == Raise then Failure(ValueError(d.name)) else Success([]))
    ensures d.Editable? && ImportableModuleName(d.name, env.dist, env.findSpec).Success?
         && ImportableModuleName(d.name, env.dist, env.findSpec).value.Some?
         ==> r == Success([ImportableModuleName(d.name, env.dist, env.findSpec).value.value])
    ensures d.Editable? && ImportableModuleName(d.name, env.dist, env.findSpec).Failure? ==>
      r == Failure(ImportableModuleName(d.name, env.dist, env.findSpec).error)
  {
    if d.Regular? then Success([])
    else
      var name :- ImportableModuleName(d.name, env.dist, env.findSpec);
      if name.Some? then Success([name.value])
      else if policy == Raise then Failure(ValueError(d.name))
      else Success([])
  }

  /** The editable records among `deps`, in order. */
  function Editables(deps: seq<Dependency>): (r: seq<Dependency>)
    ensures forall d :: d in r <==> d in deps && d.Editable?
    ensures |r| <= |deps|
  {
    if |deps| == 0 then []
    else
      assert deps == [deps[0]] + deps[1..];
      (if deps[0].Editable? then [deps[0]] else []) + Editables(deps[1..])
  }

  /** One run of names after another; the first failure wins. */
  function Then(x: Result<seq<string>, Exc>, y: Result<seq<string>, Exc>): (r: Result<seq<string>, Exc>)
    ensures r.Success? <==> x.Success? && y.Success?
    ensures x.Failure? ==> r == x
    ensures r.Success? ==> r.value == x.value + y.value
  {
    var xs :- x;
    var ys :- y;
    Success(xs + ys)
  }

  lemma ThenAssociative(x: Result<seq<string>, Exc>, y: Result<seq<string>, Exc>, z: Result<seq<string>, Exc>)
    ensures Then(Then(x, y), z) == Then(x, Then(y, z))
  {
    if x.Success? && y.Success? && z.Success? {
      assert (x.value + y.value) + z.value == x.value + (y.value + z.value);
    }
  }

  /** The loop of `_editable_modules` over already listed dependencies. */
  function EditableNames(policy: Policy, deps: seq<Dependency>, env: Environment): (r: Result<seq<string>, Exc>)
    ensures r.Success? ==> |r.value| <= |Editables(deps)|
    ensures r.Success? ==> forall d :: d in deps && d.Editable? ==> ImportableModuleName(d.name, env.dist, env.findSpec).Success?
    ensures r.Success? && policy == Raise ==> |r.value| == |Editables(deps)|
    ensures r.Success? && policy == Raise ==> forall d :: d in deps && d.Editable? ==>
      ImportableModuleName(d.name, env.dist, env.findSpec).value.Some?
  {
    if |deps| == 0 then Success([])
    else
      assert deps == [deps[0]] + deps[1..];
      Then(YieldOf(policy, deps[0], env), EditableNames(policy, deps[1..], env))
  }

  /** The importable name of `d` when it is editable and has one. */
  function FoundName(d: Dependency, env: Environment): seq<string>
  {
    if d.Editable? then
      match ImportableModuleName(d.name, env.dist, env.findSpec)
      case Success(Some(m)) => [m]
      case _ => []
    else []
  }

  /** Reference for the generator: the importable names of the editable
      dependencies, in order, those without one left out. */
  function FoundNames(deps: seq<Dependency>, env: Environment): seq<string>
  {
    if |deps| == 0 then [] else FoundName(deps[0], env) + FoundNames(deps[1..], env)
  }

  /** Every editable dependency's lookup returns, and under `Raise` finds a name. */
  ghost predicate Nameable(policy: Policy, deps: seq<Dependency>, env: Environment)
  {
    forall d :: d in deps && d.Editable? ==>
      && ImportableModuleName(d.name, env.dist, env.findSpec).Success?
      && (policy == Raise ==> ImportableModuleName(d.name, env.dist, env.findSpec).value.Some?)
  }

  /** The generator succeeds exactly when every editable dependency is
      nameable, and then yields the reference list. */
  lemma {:induction false} EditableNamesReference(policy: Policy, deps: seq<Dependency>, env: Environment)
    ensures EditableNames(policy, deps, env).Success? <==> Nameable(policy, deps, env)
    ensures EditableNames(policy, deps, env).Success? ==> EditableNames(policy, deps, env).value == FoundNames(deps, env)
  {
    if |deps| > 0 {
      var y := YieldOf(policy, deps[0], env);
      var rest := EditableNames(policy, deps[1..], env);
      assert EditableNames(policy, deps, env) == Then(y, rest) by {
        EditableNamesStep(policy, deps, env);
      }
      assert rest.Success? <==> Nameable(policy, deps[1..], env) by {
        EditableNamesReference(policy, deps[1..], env);
      }
      assert rest.Success? ==> rest.value == FoundNames(deps[1..], env) by {
        EditableNamesReference(policy, deps[1..], env);
      }
      NameableCons(policy, deps, env);
      assert FoundNames(deps, env) == FoundName(deps[0], env) + FoundNames(deps[1..], env);
    }
  }

  /** One dependency's yield: it succeeds iff the dependency is nameable,
      and then yields its reference name. */
  lemma YieldOfReference(policy: Policy, d: Dependency, env: Environment)
    ensures YieldOf(policy, d, env).Success? <==> Nameable(policy, [d], env)
    ensures YieldOf(policy, d, env).Success? ==> YieldOf(policy, d, env).value == FoundName(d, env)
  {
  }

  lemma NameableCons(policy: Policy, deps: seq<Dependency>, env: Environment)
    requires |deps| > 0
    ensures Nameable(policy, deps, env) <==> YieldOf(policy, deps[0], env).Success? && Nameable(policy, deps[1..], env)
    ensures YieldOf(policy, deps[0], env).Success? ==> YieldOf(policy, deps[0], env).value == FoundName(deps[0], env)
  {
    YieldOfReference(policy, deps[0], env);
    assert forall d :: d in deps <==> d == deps[0] || d in deps[1..] by {
      assert deps == [deps[0]] + deps[1..];
    }
  }

  lemma EditableNamesStep(policy: Policy, deps: seq<Dependency>, env: Environment)
    requires |deps| > 0
    ensures EditableNames(policy, deps, env) == Then(YieldOf(policy, deps[0], env), EditableNames(policy, deps[1..], env))
  {
  }

  /** `_editable_modules`: lists the installed packages, then names the editable ones. */
  function EditableModules(policy: Policy, env: Environment): (r: Result<seq<string>, Exc>)
    ensures env.pipList.None? ==> r == Failure(CalledProcessError("pip list"))
    ensures env.pipList.Some? && ParseDependencies(env.pipList.value).Failure? ==>
      r == Failure(ParseDependencies(env.pipList.value).error)
    ensures env.pipList.Some? && ParseDependencies(env.pipList.value).Success? ==>
      r == EditableNames(policy, ParseDependencies(env.pipList.value).value, env)
    ensures r.Success? <==>
      && env.pipList.Some?
      && (forall i :: 0 <= i < |env.pipList.value| ==> Validate(env.pipList.value[i]).Success?)
      && Nameable(policy, ParseDependencies(env.pipList.value).value, env)
    ensures r.Success? ==> r.value == FoundNames(ParseDependencies(env.pipList.value).value, env)
  {
    var deps :- CurrentPipDependencies(env.pipList);
    EditableNamesReference(policy, deps, env);
    EditableNames(policy, deps, env)
  }

  /** Regular records never matter. */
  lemma {:induction false} RegularIgnored(policy: Policy, deps: seq<Dependency>, env: Environment)
    ensures EditableNames(policy, deps, env) == EditableNames(policy, Editables(deps), env)
  {
    if |deps| > 0 {
      RegularIgnored(policy, deps[1..], env);
      EditableNamesStep(policy, deps, env);
      var rest := EditableNames(policy, deps[1..], env);
      if deps[0].Editable? {
        var e := Editables(deps);
        assert e == [deps[0]] + Editables(deps[1..]);
        assert e[0] == deps[0] && e[1..] == Editables(deps[1..]);
        EditableNamesStep(policy, e, env);
      } else {
        assert Editables(deps) == Editables(deps[1..]);
        assert YieldOf(policy, deps[0], env) == Success([]);
        if rest.Success? {
          assert [] + rest.value == rest.value;
        }
      }
    }
  }

  /** The loop runs the dependencies one after the other: the names of a
      concatenation are the names of its halves, the first failure winning. */
  lemma {:induction false} EditableNamesAppend(policy: Policy, a: seq<Dependency>, b: seq<Dependency>, env: Environment)
    ensures EditableNames(policy, a + b, env) == Then(EditableNames(policy, a, env), EditableNames(policy, b, env))
  {
    var nb := EditableNames(policy, b, env);
    if |a| == 0 {
      assert a + b == b;
      if nb.Success? {
        assert [] + nb.value == nb.value;
      }
    } else {
      assert (a + b)[0] == a[0] && (a + b)[1..] == a[1..] + b;
      EditableNamesStep(policy, a + b, env);
      EditableNamesStep(policy, a, env);
      EditableNamesAppend(policy, a[1..], b, env);
      ThenAssociative(YieldOf(policy, a[0], env), EditableNames(policy, a[1..], env), nb);
    }
  }

  /** Under `Warn` an editable package with no importable name is skipped
      and the later ones are still named. */
  lemma WarnSkipsUnnamed(pre: seq<Dependency>, d: Dependency, post: seq<Dependency>, env: Environment)
    requires d.Editable? && ImportableModuleName(d.name, env.dist, env.findSpec) == Success(None)
    ensures EditableNames(Warn, pre + [d] + post, env) == EditableNames(Warn, pre + post, env)
  {
    assert pre + [d] + post == pre + ([d] + post);
    EditableNamesAppend(Warn, pre, [d] + post, env);
    EditableNamesAppend(Warn, pre, post, env);
    SkipUnnamedHead(d, post, env);
  }

  lemma SkipUnnamedHead(d: Dependency, post: seq<Dependency>, env: Environment)
    requires d.Editable? && ImportableModuleName(d.name, env.dist, env.findSpec) == Success(None)
    ensures EditableNames(Warn, [d] + post, env) == EditableNames(Warn, post, env)
  {
    assert ([d] + post)[0] == d && ([d] + post)[1..] == post;
    EditableNamesStep(Warn, [d] + post, env);
    var rest := EditableNames(Warn, post, env);
    if rest.Success? {
      assert [] + rest.value == rest.value;
    }
  }

  /** Under `Raise` the first editable package with no importable name
      stops the loop with a `ValueError` naming it. */
  lemma RaiseStopsAtUnnamed(pre: seq<Dependency>, d: Dependency, post: seq<Dependency>, env: Environment)
    requires d.Editable? && ImportableModuleName(d.name, env.dist, env.findSpec) == Success(None)
    requires EditableNames(Raise, pre, env).Success?
    ensures EditableNames(Raise, pre + [d] + post, env) == Failure(ValueError(d.name))
  {
    assert pre + [d] + post == pre + ([d] + post);
    EditableNamesAppend(Raise, pre, [d] + post, env);
    assert ([d] + post)[0] == d && ([d] + post)[1..] == post;
    EditableNamesStep(Raise, [d] + post, env);
  }

  /** `SnapshotConfig._resolve_modules`: the configured list as it is, or
      merged with the editable packages' names. */
  function ResolveModules(cfg: SnapshotConfig, env: Environment): (r: Result<seq<string>, Exc>)
    ensures !cfg.editableModules ==> r == Success(cfg.modules)
    ensures cfg.editableModules ==> (r.Success? <==> EditableModules(cfg.onModuleNotFound, env).Success?)
    ensures cfg.editableModules && r.Success? ==>
      && StrictlySorted(r.value)
      && forall x :: x in r.value <==> x in cfg.modules || x in EditableModules(cfg.onModuleNotFound, env).value
  {
    if !cfg.editableModules then Success(cfg.modules)
    else
      var editable :- EditableModules(cfg.onModuleNotFound, env);
      var r := MergeModules([cfg.modules, editable]);
      assert [cfg.modules, editable][0] == cfg.modules && [cfg.modules, editable][1] == editable;
      Success(r)
  }

  /** The components below the home directory where snapshots go. */
  const SnapshotsBelowHome: seq<string> := [".cache", "nshsnap", "snapshots"]

  /** `_default_snapshot_dir`: a fresh git-ignored directory named `id`
      under `~/.cache/nshsnap/snapshots`. */
  function DefaultSnapshotDir(fs: FS, home: Path, id: string): (r: Outcome<Path>)
    requires WF(fs)
    ensures WF(r.fs) && Grows(fs, r.fs)
    ensures r.result.Success? ==> r.result.value == Child(ChildAll(home, SnapshotsBelowHome), id)
    ensures r.result.Success? ==> IsDir(r.fs, r.result.value) && Exists(r.fs, GitignoreOf(r.result.value))
    ensures r.result.Success? <==> NoFileOnWay(fs.nodes, KeyOf(fs, Child(ChildAll(home, SnapshotsBelowHome), id)))
  {
    var snapshots := ChildAll(home, SnapshotsBelowHome);
    ChildKey(fs, snapshots, id);
    match MkDirs(fs, snapshots)
    case Failure(e) =>
      OnWayPrefix(fs.nodes, KeyOf(fs, snapshots), KeyOf(fs, Child(snapshots, id)));
      Outcome(fs, Failure(e))
    case Success(fs1) =>
      ChildOnWay(fs, fs1, snapshots, id);
      match GitignoredDir(fs1, Child(snapshots, id), true)
      case Failure(e) => Outcome(fs1, Failure(e))
      case Success(made) =>
        GrowsTrans(fs, fs1, made.1);
        Outcome(made.1, Success(made.0))
  }

  /** The default directory adds only the directories on the way to it
      and its `.gitignore`, whether or not it succeeds. */
  lemma DefaultSnapshotDirAdds(fs: FS, home: Path, id: string)
    requires WF(fs)
    ensures var r := DefaultSnapshotDir(fs, home, id);
      var target := Child(ChildAll(home, SnapshotsBelowHome), id);
      forall k :: k in r.fs.nodes && k !in fs.nodes ==>
        k == KeyOf(fs, GitignoreOf(target)) || (|k| <= |KeyOf(fs, target)| && k == KeyOf(fs, target)[..|k|])
  {
    var snapshots := ChildAll(home, SnapshotsBelowHome);
    var target := Child(snapshots, id);
    ChildKey(fs, snapshots, id);
    var ks, kt := KeyOf(fs, snapshots), KeyOf(fs, target);
    assert |ks| <= |kt| && ks == kt[..|ks|];
    var made := MkDirs(fs, snapshots);
    if made.Success? {
      var fs1 := made.value;
      assert KeyOf(fs1, target) == kt && KeyOf(fs1, GitignoreOf(target)) == KeyOf(fs, GitignoreOf(target));
      var ignored := GitignoredDir(fs1, target, true);
      var after := if ignored.Success? then ignored.value.1 else fs1;
      assert DefaultSnapshotDir(fs, home, id).fs == after;
      WayAdds(fs.nodes, fs1.nodes, after.nodes, ks, kt, KeyOf(fs, GitignoreOf(target)));
    }
  }

  /** Two steps, the first adding only prefixes of `ks`, the second only
      `extra` and prefixes of `kt`, where `ks` is a prefix of `kt`, add
      only `extra` and prefixes of `kt`. */
  lemma WayAdds(n0: map<Key, Node>, n1: map<Key, Node>, n2: map<Key, Node>, ks: Key, kt: Key, extra: Key)
    requires |ks| <= |kt| && ks == kt[..|ks|]
    requires forall k :: k in n1 && k !in n0 ==> |k| <= |ks| && k == ks[..|k|]
    requires forall k :: k in n2 && k !in n1 ==> k == extra || (|k| <= |kt| && k == kt[..|k|])
    requires n1.Keys <= n2.Keys
    ensures forall k :: k in n2 && k !in n0 ==> k == extra || (|k| <= |kt| && k == kt[..|k|])
  {
    forall k | k in n2 && k !in n0 ensures k == extra || (|k| <= |kt| && k == kt[..|k|]) {
      if k in n1 {
        assert ks[..|k|] == kt[..|k|];
      }
    }
  }

  lemma ChildKey(fs: FS, p: Path, name: string)
    ensures KeyOf(fs, Child(p, name)) == KeyOf(fs, p) + (if name == "" then [] else [name])
  {
  }

  /** A file on the way to a path is on the way to anything below it. */
  lemma OnWayPrefix(nodes: map<Key, Node>, k: Key, k': Key)
    requires |k| <= |k'| && k == k'[..|k|]
    ensures NoFileOnWay(nodes, k') ==> NoFileOnWay(nodes, k)
  {
    forall j | 0 <= j <= |k| ensures k[..j] == k'[..j] {
    }
  }

  /** Making the directories up to `p` neither adds nor removes a file on
      the way to a child of `p`. */
  lemma ChildOnWay(fs: FS, fs1: FS, p: Path, name: string)
    requires WF(fs) && MkDirs(fs, p) == Success(fs1)
    ensures NoFileOnWay(fs1.nodes, KeyOf(fs1, Child(p, name))) <==> NoFileOnWay(fs.nodes, KeyOf(fs, Child(p, name)))
  {
    var k := KeyOf(fs, p);
    var kc := KeyOf(fs, Child(p, name));
    ChildKey(fs, p, name);
    assert KeyOf(fs1, Child(p, name)) == kc;
    if NoFileOnWay(fs.nodes, kc) {
      forall j | 0 <= j <= |kc| && kc[..j] in fs1.nodes ensures fs1.nodes[kc[..j]] == Dir {
        if j <= |k| {
          assert kc[..j] == k[..j];
        } else {
          assert kc[..j] == kc;
        }
      }
    }
  }

  /** `SnapshotConfig._resolve_snapshot_dir`: the configured directory,
      untouched, or the default one. */
  function ResolveSnapshotDir(cfg: SnapshotConfig, fs: FS, home: Path, id: string): (r: Outcome<Path>)
    requires WF(fs)
    ensures cfg.snapshotDir.Some? ==> r == Outcome(fs, Success(cfg.snapshotDir.value))
    ensures cfg.snapshotDir.None? ==> r == DefaultSnapshotDir(fs, home, id)
    ensures WF(r.fs) && Grows(fs, r.fs)
  {
    match cfg.snapshotDir
    case Some(dir) => Outcome(fs, Success(dir))
    case None => DefaultSnapshotDir(fs, home, id)
  }

  /** With the defaults every editable package is snapshot, sorted, and the
      snapshot goes to a fresh default directory. */
  lemma DefaultsResolve(env: Environment, fs: FS, home: Path, id: string)
    requires WF(fs)
    ensures var r := ResolveModules(DefaultConfig, env);
      && (r.Success? <==> EditableModules(Warn, env).Success?)
      && (r.Success? ==> r.value == SortedSet(EditableModules(Warn, env).value))
    ensures ResolveSnapshotDir(DefaultConfig, fs, home, id) == DefaultSnapshotDir(fs, home, id)
  {
    var r := ResolveModules(DefaultConfig, env);
    if r.Success? {
      var editable := EditableModules(Warn, env).value;
      var sorted := SortedSet(editable);
      assert Elems(r.value) == Elems(sorted) by {
        forall x ensures x in r.value <==> x in sorted {
          assert x !in DefaultConfig.modules;
          assert x in sorted <==> x in Elems(editable);
        }
      }
      StrictlySortedUnique(r.value, sorted);
    }
  }
}
