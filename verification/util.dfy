/** `_gitignored_dir` (`src/nshsnap/_util.py`): a directory that git is
    told to ignore as a whole. */
module Util {
  import opened Wrappers
  import opened Paths
  import opened Exceptions
  import opened FileSystem

  const GitignoreName: string := ".gitignore"
  /** Ignore everything below the directory. */
  const IgnoreAll: string := "*\n"

  function GitignoreOf(path: Path): Path
  {
    Child(path, GitignoreName)
  }

  /** Makes `path` (with `create`), requires it to be a directory, and puts
      an ignore-everything `.gitignore` in it unless one is there already. */
  function GitignoredDir(fs: FS, path: Path, create: bool): (r: Result<(Path, FS), Exc>)
    requires WF(fs)
    ensures r.Success? ==> r.value.0 == path
    ensures r.Success? ==> WF(r.value.1) && Grows(fs, r.value.1)
    ensures r.Success? ==> IsDir(r.value.1, path) && Exists(r.value.1, GitignoreOf(path))
    ensures r.Success? && Exists(fs, GitignoreOf(path)) ==>
      r.value.1.nodes[KeyOf(fs, GitignoreOf(path))] == fs.nodes[KeyOf(fs, GitignoreOf(path))]
    ensures r.Success? && !Exists(fs, GitignoreOf(path)) ==>
      r.value.1.nodes[KeyOf(fs, GitignoreOf(path))] == File(IgnoreAll)
    ensures r.Success? ==> forall k :: k in r.value.1.nodes && k !in fs.nodes ==>
      k == KeyOf(fs, GitignoreOf(path)) || (|k| <= |KeyOf(fs, path)| && k == KeyOf(fs, path)[..|k|])
    ensures create ==> (r.Success? <==> NoFileOnWay(fs.nodes, KeyOf(fs, path)))
    ensures !create ==> (r.Success? <==> IsDir(fs, path))
    ensures !create && !IsDir(fs, path) ==> r == Failure(AssertionError("not a directory"))
  {
    var fs1 :- if create then MkDirs(fs, path) else Success(fs);
    if !IsDir(fs1, path) then Failure(AssertionError("not a directory"))
    else
      var gitignore := GitignoreOf(path);
      GitignoreKey(fs, fs1, path);
      if Exists(fs1, gitignore) then Success((path, fs1))
      else
        var fs2 := Touch(fs1, gitignore).value;
        var fs3 := WriteText(fs2, gitignore, IgnoreAll).value;
        Success((path, fs3))
  }

  lemma GitignoreKey(fs: FS, fs': FS, path: Path)
    requires fs.cwd == fs'.cwd
    ensures KeyOf(fs', GitignoreOf(path)) == KeyOf(fs, GitignoreOf(path)) == KeyOf(fs, path) + [GitignoreName]
    ensures Parent(KeyOf(fs, GitignoreOf(path))) == KeyOf(fs, path)
  {
    assert (KeyOf(fs, path) + [GitignoreName])[..|KeyOf(fs, path)|] == KeyOf(fs, path);
  }

  /** Calling it again on the directory it returned changes nothing. */
  lemma GitignoredDirIdempotent(fs: FS, path: Path, create: bool, create': bool)
    requires WF(fs)
    requires GitignoredDir(fs, path, create).Success?
    ensures var fs' := GitignoredDir(fs, path, create).value.1;
      GitignoredDir(fs', path, create') == Success((path, fs'))
  {
    var fs' := GitignoredDir(fs, path, create).value.1;
    GitignoreKey(fs, fs', path);
    if create' {
      AncestorsAreDirs(fs', KeyOf(fs', path));
      MkDirsExisting(fs', path);
    }
  }

  /** In a tree, every ancestor of a directory is a directory. */
  lemma {:induction false} AncestorsAreDirs(fs: FS, k: Key)
    requires WF(fs) && k in fs.nodes && fs.nodes[k] == Dir
    ensures forall j :: 0 <= j <= |k| ==> k[..j] in fs.nodes && fs.nodes[k[..j]] == Dir
    decreases |k|
  {
    if |k| > 0 {
      AncestorsAreDirs(fs, Parent(k));
      forall j | 0 <= j <= |k| ensures k[..j] in fs.nodes && fs.nodes[k[..j]] == Dir {
        if j < |k| {
          assert k[..j] == Parent(k)[..j];
        } else {
          assert k[..j] == k;
        }
      }
    } else {
      assert k[..0] == k;
    }
  }
}
