/** `scripts/dump_files.py`: a breadth-first walk of a directory that
    collects the files passing an extension filter, include and exclude
    patterns and the `.gitignore` files met on the way, then sorts them.
    `fnmatch` and the matchers `gitignore_parser` builds are oracles. */
module DumpFiles {
  import opened Wrappers
  import opened Paths
  import opened Exceptions
  import opened Sorting
  import Util

  // ---------------------------------------------------------------------
  // The parent `.gitignore` files
  // ---------------------------------------------------------------------

  /** The `.gitignore` of the directory made of the first `n` parts of `abs`. */
  function GitignoreAt(abs: seq<string>, n: nat): Path
    requires n <= |abs|
  {
    Util.GitignoreOf(Path(true, abs[..n]))
  }

  /** The existing `.gitignore` files of the directories `abs[..n]` for
      `lo < n <= hi`, outermost first. */
  function GitignoresBetween(abs: seq<string>, lo: nat, hi: nat, isFile: Path -> bool): seq<Path>
    requires hi <= |abs|
    decreases hi - lo
  {
    if lo >= hi then []
    else
      (if isFile(GitignoreAt(abs, lo + 1)) then [GitignoreAt(abs, lo + 1)] else [])
      + GitignoresBetween(abs, lo + 1, hi, isFile)
  }

  function Reverse<T>(s: seq<T>): (r: seq<T>)
    ensures |r| == |s|
    ensures forall i :: 0 <= i < |s| ==> r[i] == s[|s| - 1 - i]
  {
    if |s| == 0 then [] else Reverse(s[1..]) + [s[0]]
  }

  /** `find_parent_gitignores`: walks from the directory (made absolute)
      up to, but not including, the root, keeping each `.gitignore` that
      is a file, and returns them root side first. */
  method FindParentGitignores(cwd: seq<string>, directory: Path, isFile: Path -> bool) returns (r: seq<Path>)
    ensures r == GitignoresBetween(Absolute(cwd, directory).parts, 0, |Absolute(cwd, directory).parts|, isFile)
  {
    var abs := Absolute(cwd, directory).parts;
    var current: nat := |abs|;
    var found: seq<Path> := [];
    while current > 0
      invariant current <= |abs|
      invariant Reverse(found) == GitignoresBetween(abs, current, |abs|, isFile)
    {
      var gitignore := GitignoreAt(abs, current);
      if isFile(gitignore) {
        ReverseSnoc(found, gitignore);
        found := found + [gitignore];
      }
      current := current - 1;
    }
    r := Reverse(found);
  }

  lemma ReverseSnoc<T>(s: seq<T>, x: T)
    ensures Reverse(s + [x]) == [x] + Reverse(s)
  {
    var a, b := Reverse(s + [x]), [x] + Reverse(s);
    assert |a| == |b|;
    forall i | 0 <= i < |a| ensures a[i] == b[i] {
      if i > 0 {
        assert a[i] == (s + [x])[|s| - i];
      }
    }
  }

  /** The first `.gitignore` listed from level `lo` on, and the rest. */
  lemma GitignoresStep(abs: seq<string>, lo: nat, hi: nat, isFile: Path -> bool)
    requires lo < hi <= |abs|
    ensures var g := GitignoreAt(abs, lo + 1);
      && g.isAbs && g.parts == abs[..lo + 1] + [Util.GitignoreName] && Name(g) == Util.GitignoreName
      && g.parts[..|g.parts| - 1] == abs[..lo + 1]
      && GitignoresBetween(abs, lo, hi, isFile)
         == (if isFile(g) then [g] else []) + GitignoresBetween(abs, lo + 1, hi, isFile)
  {
    var g := GitignoreAt(abs, lo + 1);
    assert g.parts[..|g.parts| - 1] == abs[..lo + 1];
  }

  /** Every listed `.gitignore` is a file, in an ancestor of the directory
      (the directory included, the root excluded). */
  lemma {:induction false} ParentGitignoresAreFiles(abs: seq<string>, lo: nat, hi: nat, isFile: Path -> bool)
    requires lo <= hi <= |abs|
    ensures forall g :: g in GitignoresBetween(abs, lo, hi, isFile) ==>
      && isFile(g) && g.isAbs && Name(g) == Util.GitignoreName
      && lo + 2 <= |g.parts| <= hi + 1 && g.parts[..|g.parts| - 1] == abs[..|g.parts| - 1]
    decreases hi - lo
  {
    if lo < hi {
      ParentGitignoresAreFiles(abs, lo + 1, hi, isFile);
      GitignoresStep(abs, lo, hi, isFile);
    }
  }

  /** The list runs from the root down: each entry is deeper than the one
      before. */
  lemma {:induction false} ParentGitignoresOrdered(abs: seq<string>, lo: nat, hi: nat, isFile: Path -> bool)
    requires lo <= hi <= |abs|
    ensures var r := GitignoresBetween(abs, lo, hi, isFile);
      forall i, j :: 0 <= i < j < |r| ==> |r[i].parts| < |r[j].parts|
    decreases hi - lo
  {
    if lo < hi {
      ParentGitignoresOrdered(abs, lo + 1, hi, isFile);
      GitignoresDepth(abs, lo + 1, hi, isFile);
      GitignoresStep(abs, lo, hi, isFile);
      var g := GitignoreAt(abs, lo + 1);
      var rest := GitignoresBetween(abs, lo + 1, hi, isFile);
      if isFile(g) {
        var r := [g] + rest;
        forall i, j | 0 <= i < j < |r| ensures |r[i].parts| < |r[j].parts| {
          assert r[j] == rest[j - 1];
          if i > 0 {
            assert r[i] == rest[i - 1];
          }
        }
      }
    }
  }

  lemma {:induction false} GitignoresDepth(abs: seq<string>, lo: nat, hi: nat, isFile: Path -> bool)
    requires lo <= hi <= |abs|
    ensures var r := GitignoresBetween(abs, lo, hi, isFile);
      forall k :: 0 <= k < |r| ==> |r[k].parts| >= lo + 2
    decreases hi - lo
  {
    if lo < hi {
      GitignoresDepth(abs, lo + 1, hi, isFile);
      GitignoresStep(abs, lo, hi, isFile);
    }
  }

  /** No `.gitignore` file of an ancestor is missed. */
  lemma {:induction false} ParentGitignoresComplete(abs: seq<string>, lo: nat, hi: nat, isFile: Path -> bool)
    requires lo <= hi <= |abs|
    ensures forall n :: lo < n <= hi && isFile(GitignoreAt(abs, n)) ==> GitignoreAt(abs, n) in GitignoresBetween(abs, lo, hi, isFile)
    decreases hi - lo
  {
    if lo < hi {
      ParentGitignoresComplete(abs, lo + 1, hi, isFile);
      GitignoresStep(abs, lo, hi, isFile);
    }
  }

  // ---------------------------------------------------------------------
  // Matchers and filters
  // ---------------------------------------------------------------------

  /** `should_ignore`: Python's `any` over the matchers, one at a time.
      A matcher is named by the `.gitignore` it was parsed from;
      `ignores(g, p)` is what the matcher of `g` says about `str(p)`. */
  function ShouldIgnore(path: Path, matchers: seq<Path>, ignores: (Path, Path) -> bool): (r: bool)
    ensures r <==> exists i :: 0 <= i < |matchers| && ignores(matchers[i], path)
  {
    if |matchers| == 0 then false
    else if ignores(matchers[0], path) then true
    else
      assert forall i :: 0 < i < |matchers| ==> matchers[i] == matchers[1..][i - 1];
      ShouldIgnore(path, matchers[1..], ignores)
  }

  /** Only which matchers are present counts, not their order or how
      often each occurs: repeating the parent matchers at every level
      changes nothing. */
  lemma ShouldIgnoreBySet(path: Path, a: seq<Path>, b: seq<Path>, ignores: (Path, Path) -> bool)
    requires Elems(a) == Elems(b)
    ensures ShouldIgnore(path, a, ignores) == ShouldIgnore(path, b, ignores)
  {
    if ShouldIgnore(path, a, ignores) {
      var i :| 0 <= i < |a| && ignores(a[i], path);
      assert a[i] in Elems(b);
      var j :| 0 <= j < |b| && b[j] == a[i];
    }
    if ShouldIgnore(path, b, ignores) {
      var j :| 0 <= j < |b| && ignores(b[j], path);
      assert b[j] in Elems(a);
      var i :| 0 <= i < |a| && a[i] == b[j];
    }
  }

  /** Python's `any(fnmatch(name, pattern) for pattern in patterns)`. */
  predicate AnyMatch(name: string, patterns: seq<string>, fnmatch: (string, string) -> bool)
  {
    exists i :: 0 <= i < |patterns| && fnmatch(name, patterns[i])
  }

  /** Python's `str.rfind(c)`: the last index of `c`, or -1. */
  function RFind(s: string, c: char): (r: int)
    ensures -1 <= r < |s|
    ensures r >= 0 ==> s[r] == c
    ensures forall k :: r < k < |s| ==> s[k] != c
  {
    if |s| == 0 then -1
    else if s[|s| - 1] == c then |s| - 1
    else RFind(s[..|s| - 1], c)
  }

  /** `PurePath.suffix` of a name: from its last dot on, unless that dot
      is the first or the last character. */
  function Suffix(name: string): (r: string)
    ensures r != "" ==> |r| >= 2 && r[0] == '.' && '.' !in r[1..] && |r| < |name| && name[|name| - |r|..] == r
    ensures r == "" <==>
      |name| == 0 || name[|name| - 1] == '.' || forall k :: 0 < k < |name| ==> name[k] != '.'
  {
    var i := RFind(name, '.');
    if 0 < i < |name| - 1 then
      assert forall k :: 0 <= k < |name[i..]| - 1 ==> name[i..][1..][k] == name[i + 1 + k];
      name[i..]
    else ""
  }

  /** The command line's filters: `--extension`, `--include`, `--exclude`. */
  datatype Filters = Filters(extension: Option<string>, includes: seq<string>, excludes: seq<string>)

  /** The checks a file's name goes through, in the order the filters are applied. */
  predicate KeepsFile(name: string, f: Filters, fnmatch: (string, string) -> bool)
  {
    && !(f.extension.Some? && f.extension.value != "" && Suffix(name) != f.extension.value)
    && !(|f.includes| > 0 && !AnyMatch(name, f.includes, fnmatch))
    && !AnyMatch(name, f.excludes, fnmatch)
  }

  /** Without filters every file is kept; an exclude pattern beats an
      include pattern; with include patterns or an extension, a kept file
      matches one of them and has that suffix. */
  lemma KeepsFileFilters(name: string, f: Filters, fnmatch: (string, string) -> bool)
    ensures KeepsFile(name, Filters(None, [], []), fnmatch)
    ensures AnyMatch(name, f.excludes, fnmatch) ==> !KeepsFile(name, f, fnmatch)
    ensures KeepsFile(name, f, fnmatch) && |f.includes| > 0 ==>
      exists i :: 0 <= i < |f.includes| && fnmatch(name, f.includes[i])
    ensures KeepsFile(name, f, fnmatch) && f.extension.Some? && f.extension.value != "" ==>
      Suffix(name) == f.extension.value
  {
  }

  // ---------------------------------------------------------------------
  // The directory tree and the reference walk
  // ---------------------------------------------------------------------

  /** What `is_file()` / `is_dir()` see; a directory lists its entries in
      `iterdir()` order. Anything else (a broken link, a socket) is
      neither. */
  datatype Tree = FileT | DirT(entries: seq<Entry>) | OtherT
  datatype Entry = Entry(name: string, tree: Tree)

  /** Whether `directory / ".gitignore"` is a file. */
  predicate HasGitignore(entries: seq<Entry>)
  {
    exists i :: 0 <= i < |entries| && entries[i].name == Util.GitignoreName && entries[i].tree.FileT?
  }

  /** Only a file named `.gitignore` counts: an entry of that name that is
      a directory (or neither) does not, unless a file of that name is
      listed as well. */
  lemma GitignoreMustBeFile(entries: seq<Entry>)
    ensures HasGitignore(entries) <==> Entry(Util.GitignoreName, FileT) in entries
  {
    if HasGitignore(entries) {
      var i :| 0 <= i < |entries| && entries[i].name == Util.GitignoreName && entries[i].tree.FileT?;
      assert entries[i] == Entry(Util.GitignoreName, FileT);
    }
    if Entry(Util.GitignoreName, FileT) in entries {
      var i :| 0 <= i < |entries| && entries[i] == Entry(Util.GitignoreName, FileT);
      assert entries[i].name == Util.GitignoreName && entries[i].tree.FileT?;
    }
  }

  /** A queue element: a directory, its entries, and the matchers of the
      directory it was found in. */
  datatype Pending = Pending(dir: Path, entries: seq<Entry>, matchers: seq<Path>)

  /** What stays fixed during one walk. */
  datatype Walk = Walk(filters: Filters, respect: bool, parent: seq<Path>,
                       ignores: (Path, Path) -> bool, fnmatch: (string, string) -> bool)

  /** The matchers in force inside a directory: the parent ones, the
      inherited ones and its own `.gitignore`, when it has one. */
  function Accumulated(p: Pending, w: Walk): (ms: seq<Path>)
    ensures w.respect ==> forall g :: g in w.parent + p.matchers ==> g in ms
    ensures w.respect && HasGitignore(p.entries) ==> Util.GitignoreOf(p.dir) in ms
    ensures !w.respect ==> ms == p.matchers
  {
    if w.respect then
      if HasGitignore(p.entries) then w.parent + p.matchers + [Util.GitignoreOf(p.dir)] else w.parent + p.matchers
    else p.matchers
  }

  datatype Step = Skip | Take | Descend

  /** What the walk does with one entry of a directory. */
  function Classify(e: Entry, item: Path, ms: seq<Path>, w: Walk): (r: Step)
    ensures r == Take ==> e.tree.FileT? && KeepsFile(Name(item), w.filters, w.fnmatch)
    ensures r == Descend ==> e.tree.DirT?
    ensures r != Skip ==> !(w.respect && ShouldIgnore(item, ms, w.ignores))
  {
    if w.respect && ShouldIgnore(item, ms, w.ignores) then Skip
    else if e.tree.FileT? then (if KeepsFile(Name(item), w.filters, w.fnmatch) then Take else Skip)
    else if e.tree.DirT? then Descend
    else Skip
  }

  /** The files the walk collects below a queued directory, depth first:
      the reference the breadth-first loop is compared with. */
  function Visit(p: Pending, w: Walk): seq<Path>
    decreases p.entries, 1
  {
    if Name(p.dir) == ".git" then []
    else VisitFrom(p.dir, p.entries, Accumulated(p, w), 0, w)
  }

  /** The files collected from entry `i` of a directory on. */
  function VisitFrom(dir: Path, entries: seq<Entry>, ms: seq<Path>, i: nat, w: Walk): seq<Path>
    requires i <= |entries|
    decreases entries, 0, |entries| - i
  {
    if i == |entries| then []
    else
      var e := entries[i];
      var item := Child(dir, e.name);
      var here := match Classify(e, item, ms, w)
        case Take => [item]
        case Descend => Visit(Pending(item, e.tree.entries, ms), w)
        case Skip => [];
      here + VisitFrom(dir, entries, ms, i + 1, w)
  }

  /** The files below `directory`, whose tree is `root`. */
  function Reference(directory: Path, root: Tree, w: Walk): seq<Path>
  {
    if root.DirT? then Visit(Pending(directory, root.entries, []), w) else []
  }

  function VisitAll(queue: seq<Pending>, w: Walk): seq<Path>
  {
    if |queue| == 0 then [] else Visit(queue[0], w) + VisitAll(queue[1..], w)
  }

  lemma PopFront(queue: seq<Pending>, w: Walk)
    requires |queue| > 0
    ensures QueueSize(queue) == 1 + EntriesSize(queue[0].entries, 0) + QueueSize(queue[1..])
    ensures VisitAll(queue, w) == Visit(queue[0], w) + VisitAll(queue[1..], w)
  {
  }

  lemma {:induction false} VisitAllSnoc(queue: seq<Pending>, x: Pending, w: Walk)
    ensures multiset(VisitAll(queue + [x], w)) == multiset(VisitAll(queue, w)) + multiset(Visit(x, w))
  {
    if |queue| > 0 {
      assert (queue + [x])[1..] == queue[1..] + [x];
      VisitAllSnoc(queue[1..], x, w);
    } else {
      assert VisitAll([x], w) == Visit(x, w) + VisitAll([], w);
    }
  }

  /** The number of entries below a directory, from entry `i` on: what
      the walk's queue uses up. */
  function EntriesSize(entries: seq<Entry>, i: nat): nat
    requires i <= |entries|
    decreases entries, |entries| - i
  {
    if i == |entries| then 0
    else
      1 + (if entries[i].tree.DirT? then EntriesSize(entries[i].tree.entries, 0) else 0)
      + EntriesSize(entries, i + 1)
  }

  function QueueSize(queue: seq<Pending>): nat
  {
    if |queue| == 0 then 0 else 1 + EntriesSize(queue[0].entries, 0) + QueueSize(queue[1..])
  }

  lemma {:induction false} QueueSizeSnoc(queue: seq<Pending>, x: Pending)
    ensures QueueSize(queue + [x]) == QueueSize(queue) + 1 + EntriesSize(x.entries, 0)
  {
    if |queue| > 0 {
      assert (queue + [x])[1..] == queue[1..] + [x];
      QueueSizeSnoc(queue[1..], x);
    } else {
      assert QueueSize([x]) == 1 + EntriesSize(x.entries, 0) + QueueSize([]);
    }
  }

  // ---------------------------------------------------------------------
  // The breadth-first walk
  // ---------------------------------------------------------------------

  /** `find_files_bfs`: the files below `directory` (whose tree is `root`)
      that pass the filters, sorted. The queue is worked off in order and
      each directory's own matchers travel with its subdirectories; the
      result is the depth-first reference, sorted. Listing a root that is
      not a directory raises, unless it is named `.git`. */
  method FindFilesBfs(directory: Path, root: Tree, filters: Filters, respect: bool, cwd: seq<string>,
                      isFile: Path -> bool, ignores: (Path, Path) -> bool, fnmatch: (string, string) -> bool)
    returns (r: Result<seq<Path>, Exc>)
    ensures r.Failure? <==> !root.DirT? && Name(directory) != ".git"
    ensures r.Success? ==> PathsSorted(r.value)
    ensures r.Success? ==>
      var parent := if respect then GitignoresBetween(Absolute(cwd, directory).parts, 0, |Absolute(cwd, directory).parts|, isFile) else [];
      r.value == SortPaths(Reference(directory, root, Walk(filters, respect, parent, ignores, fnmatch)))
  {
    var parent: seq<Path> := [];
    if respect {
      parent := FindParentGitignores(cwd, directory, isFile);
    }
    var w := Walk(filters, respect, parent, ignores, fnmatch);
    if !root.DirT? {
      if Name(directory) == ".git" {
        return Success([]);
      }
      return Failure(NotADirectoryError(directory));
    }
    var start := Pending(directory, root.entries, []);
    var queue := [start];
    var result: seq<Path> := [];
    assert VisitAll(queue, w) == Visit(start, w) + VisitAll([], w);
    while |queue| > 0
      invariant multiset(result) + multiset(VisitAll(queue, w)) == multiset(Visit(start, w))
      decreases QueueSize(queue)
    {
      var current := queue[0];
      PopFront(queue, w);
      queue := queue[1..];
      if Name(current.dir) == ".git" {
        continue;
      }
      var matchers := current.matchers;
      if respect {
        if HasGitignore(current.entries) {
          matchers := parent + matchers + [Util.GitignoreOf(current.dir)];
        } else {
          matchers := parent + matchers;
        }
      }
      assert matchers == Accumulated(current, w);
      queue, result := ScanDirectory(current.dir, current.entries, matchers, w, queue, result);
    }
    SortedAsReference(result, start, w);
    r := Success(SortPaths(result));
  }

  /** Whatever order the walk found the files in, sorting them gives the
      sorted reference. */
  lemma SortedAsReference(result: seq<Path>, start: Pending, w: Walk)
    requires multiset(result) == multiset(Visit(start, w))
    ensures SortPaths(result) == SortPaths(Visit(start, w))
  {
    VisitBelow(start, w);
    var a, b := SortPaths(result), SortPaths(Visit(start, w));
    forall i | 0 <= i < |a| ensures a[i].isAbs == start.dir.isAbs {
      assert a[i] in multiset(a);
      assert a[i] in Visit(start, w);
    }
    PathsSortedUnique(a, b, start.dir.isAbs);
  }

  /** The `for item in current_dir.iterdir()` loop: files that pass are
      added to the result, subdirectories that are not ignored are queued
      with the directory's matchers; together they hold exactly what the
      reference collects from the directory. */
  method ScanDirectory(dir: Path, entries: seq<Entry>, matchers: seq<Path>, w: Walk, queue0: seq<Pending>, result0: seq<Path>)
    returns (queue: seq<Pending>, result: seq<Path>)
    ensures multiset(result) + multiset(VisitAll(queue, w))
         == multiset(result0) + multiset(VisitAll(queue0, w)) + multiset(VisitFrom(dir, entries, matchers, 0, w))
    ensures QueueSize(queue) <= QueueSize(queue0) + EntriesSize(entries, 0)
  {
    queue, result := queue0, result0;
    ghost var goal := multiset(result0) + multiset(VisitAll(queue0, w)) + multiset(VisitFrom(dir, entries, matchers, 0, w));
    var i := 0;
    while i < |entries|
      invariant i <= |entries|
      invariant multiset(result) + multiset(VisitAll(queue, w)) + multiset(VisitFrom(dir, entries, matchers, i, w)) == goal
      invariant QueueSize(queue) + EntriesSize(entries, i) <= QueueSize(queue0) + EntriesSize(entries, 0)
    {
      queue, result := ScanEntry(dir, entries, i, matchers, w, queue, result);
      i := i + 1;
    }
  }

  /** One turn of that loop: the entry is skipped, added to the result, or
      queued. */
  method ScanEntry(dir: Path, entries: seq<Entry>, i: nat, matchers: seq<Path>, w: Walk, queue0: seq<Pending>, result0: seq<Path>)
    returns (queue: seq<Pending>, result: seq<Path>)
    requires i < |entries|
    ensures multiset(result) + multiset(VisitAll(queue, w)) + multiset(VisitFrom(dir, entries, matchers, i + 1, w))
         == multiset(result0) + multiset(VisitAll(queue0, w)) + multiset(VisitFrom(dir, entries, matchers, i, w))
    ensures QueueSize(queue) + EntriesSize(entries, i + 1) <= QueueSize(queue0) + EntriesSize(entries, i)
  {
    queue, result := queue0, result0;
    var e := entries[i];
    var item := Child(dir, e.name);
    VisitFromStep(dir, entries, matchers, i, w);
    ghost var later := multiset(VisitFrom(dir, entries, matchers, i + 1, w));
    match Classify(e, item, matchers, w) {
      case Take =>
        assert multiset(VisitFrom(dir, entries, matchers, i, w)) == multiset{item} + later;
        assert multiset(result + [item]) == multiset(result) + multiset{item};
        result := result + [item];
      case Descend =>
        var next := Pending(item, e.tree.entries, matchers);
        assert multiset(VisitFrom(dir, entries, matchers, i, w)) == multiset(Visit(next, w)) + later;
        VisitAllSnoc(queue, next, w);
        QueueSizeSnoc(queue, next);
        queue := queue + [next];
      case Skip =>
    }
  }

  /** One entry of the directory: what the reference collects for it. */
  lemma VisitFromStep(dir: Path, entries: seq<Entry>, ms: seq<Path>, i: nat, w: Walk)
    requires i < |entries|
    ensures var e := entries[i];
      var item := Child(dir, e.name);
      && EntriesSize(entries, i) == 1 + (if e.tree.DirT? then EntriesSize(e.tree.entries, 0) else 0) + EntriesSize(entries, i + 1)
      && (Classify(e, item, ms, w) == Take ==> VisitFrom(dir, entries, ms, i, w) == [item] + VisitFrom(dir, entries, ms, i + 1, w))
      && (Classify(e, item, ms, w) == Descend ==>
            VisitFrom(dir, entries, ms, i, w) == Visit(Pending(item, e.tree.entries, ms), w) + VisitFrom(dir, entries, ms, i + 1, w))
      && (Classify(e, item, ms, w) == Skip ==> VisitFrom(dir, entries, ms, i, w) == VisitFrom(dir, entries, ms, i + 1, w))
  {
    var rest := VisitFrom(dir, entries, ms, i + 1, w);
    assert [] + rest == rest;
  }

  // ---------------------------------------------------------------------
  // What the walk returns
  // ---------------------------------------------------------------------

  /** Every entry name is non-empty, as `iterdir()` guarantees. */
  ghost predicate Named(entries: seq<Entry>)
    decreases entries
  {
    forall i :: 0 <= i < |entries| ==>
      entries[i].name != "" && (entries[i].tree.DirT? ==> Named(entries[i].tree.entries))
  }

  /** `x` is a file below `dir` reached through no directory named `.git`. */
  ghost predicate Under(x: Path, dir: Path)
  {
    && |x.parts| > |dir.parts| && x.parts[..|dir.parts|] == dir.parts
    && forall k :: |dir.parts| <= k < |x.parts| - 1 ==> x.parts[k] != ".git"
  }

  /** No directory named `.git` is walked: every collected path lies below
      the directory, which is not named `.git`, through directories none
      of which is named `.git`. */
  lemma {:induction false} VisitBelow(p: Pending, w: Walk)
    ensures forall x :: x in Visit(p, w) ==> x.isAbs == p.dir.isAbs
    ensures Named(p.entries) ==> forall x :: x in Visit(p, w) ==> Under(x, p.dir) && Name(p.dir) != ".git"
    decreases p.entries, 1
  {
    if Name(p.dir) != ".git" {
      VisitFromBelow(p.dir, p.entries, Accumulated(p, w), 0, w);
    }
  }

  lemma {:induction false} VisitFromBelow(dir: Path, entries: seq<Entry>, ms: seq<Path>, i: nat, w: Walk)
    requires i <= |entries|
    ensures forall x :: x in VisitFrom(dir, entries, ms, i, w) ==> x.isAbs == dir.isAbs
    ensures Named(entries) ==> forall x :: x in VisitFrom(dir, entries, ms, i, w) ==> Under(x, dir)
    decreases entries, 0, |entries| - i
  {
    if i < |entries| {
      var e := entries[i];
      var item := Child(dir, e.name);
      VisitFromBelow(dir, entries, ms, i + 1, w);
      VisitFromStep(dir, entries, ms, i, w);
      if Classify(e, item, ms, w) == Descend {
        var q := Pending(item, e.tree.entries, ms);
        VisitBelow(q, w);
        if Named(entries) {
          forall x | x in Visit(q, w) ensures Under(x, dir) {
            UnderParent(x, dir, e.name);
          }
        }
      }
      if Named(entries) {
        assert item.parts == dir.parts + [e.name];
      }
    }
  }

  /** Below a child not named `.git` is below its parent. */
  lemma UnderParent(x: Path, dir: Path, name: string)
    requires name != "" && name != ".git"
    requires Under(x, Child(dir, name))
    ensures Under(x, dir)
  {
    var item := Child(dir, name);
    assert item.parts == dir.parts + [name];
    assert x.parts[..|dir.parts|] == x.parts[..|item.parts|][..|dir.parts|];
    assert x.parts[|dir.parts|] == item.parts[|dir.parts|] == name;
  }

  /** Every collected file passes the extension, include and exclude
      checks, and, when `.gitignore` files are respected, no matcher in
      force where it was found ignores it: not the parent ones, not the
      inherited ones, not the directory's own. */
  lemma {:induction false} VisitPasses(p: Pending, w: Walk)
    ensures forall x :: x in Visit(p, w) ==> KeepsFile(Name(x), w.filters, w.fnmatch)
    ensures w.respect ==> forall x, g :: x in Visit(p, w) && g in w.parent + p.matchers ==> !w.ignores(g, x)
    ensures w.respect && HasGitignore(p.entries) ==>
      forall x :: x in Visit(p, w) ==> !w.ignores(Util.GitignoreOf(p.dir), x)
    decreases p.entries, 1
  {
    if Name(p.dir) != ".git" {
      VisitFromPasses(p.dir, p.entries, Accumulated(p, w), 0, w);
    }
  }

  lemma {:induction false} VisitFromPasses(dir: Path, entries: seq<Entry>, ms: seq<Path>, i: nat, w: Walk)
    requires i <= |entries|
    ensures forall x :: x in VisitFrom(dir, entries, ms, i, w) ==> KeepsFile(Name(x), w.filters, w.fnmatch)
    ensures w.respect ==> forall x, g :: x in VisitFrom(dir, entries, ms, i, w) && g in ms ==> !w.ignores(g, x)
    decreases entries, 0, |entries| - i
  {
    if i < |entries| {
      var e := entries[i];
      var item := Child(dir, e.name);
      VisitFromPasses(dir, entries, ms, i + 1, w);
      VisitFromStep(dir, entries, ms, i, w);
      if Classify(e, item, ms, w) == Descend {
        var q := Pending(item, e.tree.entries, ms);
        VisitPasses(q, w);
        assert forall g :: g in ms ==> g in w.parent + ms;
      } else if Classify(e, item, ms, w) == Take && w.respect {
        forall g | g in ms ensures !w.ignores(g, item) {
          var j :| 0 <= j < |ms| && ms[j] == g;
        }
      }
    }
  }

  /** What `find_files_bfs` promises about each file it returns. */
  lemma ReturnedFiles(directory: Path, root: Tree, w: Walk, x: Path)
    requires x in SortPaths(Reference(directory, root, w))
    ensures KeepsFile(Name(x), w.filters, w.fnmatch)
    ensures w.filters.extension.Some? && w.filters.extension.value != "" ==> Suffix(Name(x)) == w.filters.extension.value
    ensures |w.filters.includes| > 0 ==> AnyMatch(Name(x), w.filters.includes, w.fnmatch)
    ensures !AnyMatch(Name(x), w.filters.excludes, w.fnmatch)
    ensures w.respect ==> !ShouldIgnore(x, w.parent, w.ignores)
    ensures w.respect && root.DirT? && HasGitignore(root.entries) ==> !w.ignores(Util.GitignoreOf(directory), x)
    ensures root.DirT? && Named(root.entries) ==> Under(x, directory) && Name(directory) != ".git"
  {
    assert x in multiset(SortPaths(Reference(directory, root, w)));
    assert x in Reference(directory, root, w);
    var start := Pending(directory, root.entries, []);
    VisitPasses(start, w);
    VisitBelow(start, w);
    assert w.parent + [] == w.parent;
  }
}
