/** An abstract local filesystem: absolute part-lists mapped to directories
    and files, with the `pathlib.Path` calls the core makes on it. Paths
    are not normalised: `.` and `..` are ordinary names here. */
module FileSystem {
  import opened Wrappers
  import opened Paths
  import opened Exceptions

  datatype Node = Dir | File(content: string)

  type Key = seq<string>

  /** The tree and the process's working directory. */
  datatype FS = FS(cwd: Key, nodes: map<Key, Node>)

  /** A step with side effects: the filesystem it leaves behind, whether it
      returned a value or raised. */
  datatype Outcome<+T> = Outcome(fs: FS, result: Result<T, Exc>)

  function Parent(k: Key): Key
  {
    if |k| == 0 then k else k[..|k| - 1]
  }

  /** A tree: the root is a directory and every other entry sits in one. */
  ghost predicate Tree(nodes: map<Key, Node>)
  {
    && [] in nodes && nodes[[]] == Dir
    && forall k :: k in nodes && |k| > 0 ==> Parent(k) in nodes && nodes[Parent(k)] == Dir
  }

  ghost predicate WF(fs: FS)
  {
    Tree(fs.nodes)
  }

  /** Where a path points, relative paths taken from the working directory. */
  function KeyOf(fs: FS, p: Path): Key
  {
    Absolute(fs.cwd, p).parts
  }

  predicate Exists(fs: FS, p: Path)
  {
    KeyOf(fs, p) in fs.nodes
  }

  predicate IsDir(fs: FS, p: Path)
  {
    KeyOf(fs, p) in fs.nodes && fs.nodes[KeyOf(fs, p)] == Dir
  }

  predicate IsFile(fs: FS, p: Path)
  {
    KeyOf(fs, p) in fs.nodes && fs.nodes[KeyOf(fs, p)].File?
  }

  /** Every entry of `before` is still in `after`, unchanged. */
  ghost predicate Grows(before: FS, after: FS)
  {
    && before.cwd == after.cwd
    && forall k :: k in before.nodes ==> k in after.nodes && after.nodes[k] == before.nodes[k]
  }

  lemma GrowsTrans(a: FS, b: FS, c: FS)
    requires Grows(a, b) && Grows(b, c)
    ensures Grows(a, c)
  {
  }

  /** Nothing is removed: every entry of `before` is still in `after`,
      possibly changed, and the working directory is the same. */
  ghost predicate Kept(before: FS, after: FS)
  {
    && before.cwd == after.cwd
    && forall k :: k in before.nodes ==> k in after.nodes
  }

  lemma KeptTrans(a: FS, b: FS, c: FS)
    requires Kept(a, b) && Kept(b, c)
    ensures Kept(a, c)
  {
  }

  /** `before` and `after` differ at most at `k`. */
  ghost predicate OnlyAt(before: FS, after: FS, k: Key)
  {
    && before.cwd == after.cwd
    && (forall x :: x != k && x in before.nodes ==> x in after.nodes && after.nodes[x] == before.nodes[x])
    && (forall x :: x != k && x in after.nodes ==> x in before.nodes)
  }

  /** A step that changes one entry and leaves it present removes nothing. */
  lemma OnlyAtKept(before: FS, after: FS, k: Key)
    requires OnlyAt(before, after, k) && k in after.nodes
    ensures Kept(before, after)
  {
  }

  /** No prefix of `k` (the root, its ancestors, `k` itself) is a file. */
  predicate NoFileOnWay(nodes: map<Key, Node>, k: Key)
  {
    forall j | 0 <= j <= |k| :: k[..j] in nodes ==> nodes[k[..j]] == Dir
  }

  /** The prefixes of `k`: the root, each ancestor, `k` itself. */
  function Prefixes(k: Key): set<Key>
  {
    set j | 0 <= j <= |k| :: k[..j]
  }

  /** `path.mkdir(parents=True, exist_ok=True)`: creates the missing
      directories on the way to `p`; fails, changing nothing, when one of
      them is a file. */
  function MkDirs(fs: FS, p: Path): (r: Result<FS, Exc>)
    requires WF(fs)
    ensures r.Success? <==> NoFileOnWay(fs.nodes, KeyOf(fs, p))
    ensures r.Success? ==> WF(r.value) && Grows(fs, r.value) && IsDir(r.value, p)
    ensures r.Success? ==> forall j :: 0 <= j <= |KeyOf(fs, p)| ==>
      KeyOf(fs, p)[..j] in r.value.nodes && r.value.nodes[KeyOf(fs, p)[..j]] == Dir
    ensures r.Success? ==> forall x :: x in r.value.nodes && x !in fs.nodes ==>
      |x| <= |KeyOf(fs, p)| && x == KeyOf(fs, p)[..|x|] && r.value.nodes[x] == Dir
  {
    var k := KeyOf(fs, p);
    if !NoFileOnWay(fs.nodes, k) then
      Failure(if k in fs.nodes then FileExistsError(Path(true, k)) else NotADirectoryError(Path(true, k)))
    else
      var nodes := map x | x in fs.nodes.Keys + Prefixes(k) :: if x in fs.nodes then fs.nodes[x] else Dir;
      MkDirsTree(fs.nodes, k, nodes);
      assert k[..|k|] == k;
      Success(FS(fs.cwd, nodes))
  }

  lemma MkDirsTree(nodes: map<Key, Node>, k: Key, nodes': map<Key, Node>)
    requires Tree(nodes) && NoFileOnWay(nodes, k)
    requires nodes' == map x | x in nodes.Keys + Prefixes(k) :: if x in nodes then nodes[x] else Dir
    ensures Tree(nodes')
    ensures forall j :: 0 <= j <= |k| ==> k[..j] in nodes' && nodes'[k[..j]] == Dir
  {
    assert k[..0] in Prefixes(k);
    forall x | x in nodes' && |x| > 0 ensures Parent(x) in nodes' && nodes'[Parent(x)] == Dir {
      if x !in nodes {
        var j :| 0 <= j <= |k| && x == k[..j];
        assert Parent(x) == k[..j - 1];
        assert Parent(x) in Prefixes(k);
      }
    }
    forall j | 0 <= j <= |k| ensures k[..j] in nodes' && nodes'[k[..j]] == Dir {
      assert k[..j] in Prefixes(k);
    }
  }

  /** `path.mkdir(exist_ok=...)` without `parents`: the parent must already
      be a directory. */
  function MkDir(fs: FS, p: Path, existOk: bool): (r: Result<FS, Exc>)
    requires WF(fs)
    ensures r.Success? <==>
      if Exists(fs, p) then existOk && IsDir(fs, p) else Parent(KeyOf(fs, p)) in fs.nodes && fs.nodes[Parent(KeyOf(fs, p))] == Dir
    ensures r.Success? ==> WF(r.value) && IsDir(r.value, p) && OnlyAt(fs, r.value, KeyOf(fs, p)) && Grows(fs, r.value)
  {
    var k := KeyOf(fs, p);
    if k in fs.nodes then
      if existOk && fs.nodes[k] == Dir then Success(fs) else Failure(FileExistsError(Path(true, k)))
    else if Parent(k) !in fs.nodes then Failure(FileNotFoundError(Path(true, k)))
    else if fs.nodes[Parent(k)] != Dir then Failure(NotADirectoryError(Path(true, k)))
    else Success(FS(fs.cwd, fs.nodes[k := Dir]))
  }

  /** `path.touch(exist_ok=True)`: an existing entry keeps its content;
      otherwise an empty file appears in the (existing) parent directory. */
  function Touch(fs: FS, p: Path): (r: Result<FS, Exc>)
    requires WF(fs)
    ensures Exists(fs, p) ==> r == Success(fs)
    ensures r.Success? <==> Exists(fs, p) || (Parent(KeyOf(fs, p)) in fs.nodes && fs.nodes[Parent(KeyOf(fs, p))] == Dir)
    ensures r.Success? ==> WF(r.value) && Exists(r.value, p) && OnlyAt(fs, r.value, KeyOf(fs, p)) && Grows(fs, r.value)
    ensures r.Success? && !Exists(fs, p) ==> r.value.nodes[KeyOf(fs, p)] == File("")
  {
    var k := KeyOf(fs, p);
    if k in fs.nodes then Success(fs)
    else if Parent(k) !in fs.nodes then Failure(FileNotFoundError(Path(true, k)))
    else if fs.nodes[Parent(k)] != Dir then Failure(NotADirectoryError(Path(true, k)))
    else Success(FS(fs.cwd, fs.nodes[k := File("")]))
  }

  /** `path.write_text(text)`: the file now holds exactly `text`. */
  function WriteText(fs: FS, p: Path, text: string): (r: Result<FS, Exc>)
    requires WF(fs)
    ensures r.Success? <==> !IsDir(fs, p) && Parent(KeyOf(fs, p)) in fs.nodes && fs.nodes[Parent(KeyOf(fs, p))] == Dir
    ensures r.Success? ==> WF(r.value) && KeyOf(fs, p) in r.value.nodes && r.value.nodes[KeyOf(fs, p)] == File(text) && OnlyAt(fs, r.value, KeyOf(fs, p))
  {
    var k := KeyOf(fs, p);
    if k in fs.nodes && fs.nodes[k] == Dir then Failure(IsADirectoryError(Path(true, k)))
    else if Parent(k) !in fs.nodes then Failure(FileNotFoundError(Path(true, k)))
    else if fs.nodes[Parent(k)] != Dir then Failure(NotADirectoryError(Path(true, k)))
    else Success(FS(fs.cwd, fs.nodes[k := File(text)]))
  }

  /** `mkdir(parents=True, exist_ok=True)` on a directory whose every
      ancestor is a directory changes nothing. */
  lemma MkDirsExisting(fs: FS, p: Path)
    requires WF(fs)
    requires forall j :: 0 <= j <= |KeyOf(fs, p)| ==> KeyOf(fs, p)[..j] in fs.nodes && fs.nodes[KeyOf(fs, p)[..j]] == Dir
    ensures MkDirs(fs, p) == Success(fs)
  {
    var k := KeyOf(fs, p);
    var nodes := map x | x in fs.nodes.Keys + Prefixes(k) :: if x in fs.nodes then fs.nodes[x] else Dir;
    assert Prefixes(k) <= fs.nodes.Keys;
    assert nodes == fs.nodes;
  }
}
