/** Python's ordering of `str` (code point by code point, a proper prefix
    first) and of `pathlib` paths (part by part), with `sorted()` on each. */
module Sorting {

  import opened Paths

  /** The length of the longest common prefix of `a` and `b`: they agree
      up to it and differ at it, when neither has ended. */
  function CommonPrefix<T(==)>(a: seq<T>, b: seq<T>): (k: nat)
    ensures k <= |a| && k <= |b| && a[..k] == b[..k]
    ensures k < |a| && k < |b| ==> a[k] != b[k]
  {
    if |a| == 0 || |b| == 0 || a[0] != b[0] then 0 else 1 + CommonPrefix(a[1..], b[1..])
  }

  /** `a < b` on Python strings. */
  predicate StrLt(a: string, b: string)
  {
    if |a| == 0 then |b| > 0
    else if |b| == 0 then false
    else if a[0] != b[0] then a[0] < b[0]
    else StrLt(a[1..], b[1..])
  }

  /** String order is decided at the first position where the strings
      differ, by the smaller code point; a proper prefix comes first. */
  lemma {:induction false} StrLtFirstDifference(a: string, b: string)
    ensures StrLt(a, b) <==> var k := CommonPrefix(a, b); k < |b| && (k == |a| || a[k] < b[k])
  {
    if |a| > 0 && |b| > 0 && a[0] == b[0] {
      StrLtFirstDifference(a[1..], b[1..]);
    }
  }

  lemma {:induction false} StrLtIrreflexive(a: string)
    ensures !StrLt(a, a)
  {
    if |a| > 0 {
      StrLtIrreflexive(a[1..]);
    }
  }

  lemma {:induction false} StrLtTransitive(a: string, b: string, c: string)
    requires StrLt(a, b) && StrLt(b, c)
    ensures StrLt(a, c)
  {
    if |a| > 0 && |b| > 0 && |c| > 0 && a[0] == b[0] == c[0] {
      StrLtTransitive(a[1..], b[1..], c[1..]);
    }
  }

  lemma {:induction false} StrLtTotal(a: string, b: string)
    requires a != b
    ensures StrLt(a, b) || StrLt(b, a)
  {
    if |a| > 0 && |b| > 0 && a[0] == b[0] {
      assert a == [a[0]] + a[1..] && b == [b[0]] + b[1..];
      StrLtTotal(a[1..], b[1..]);
    }
  }

  lemma StrLtAsymmetric(a: string, b: string)
    requires StrLt(a, b)
    ensures !StrLt(b, a)
  {
    if StrLt(b, a) {
      StrLtTransitive(a, b, a);
      StrLtIrreflexive(a);
    }
  }

  function Elems<T>(s: seq<T>): set<T>
  {
    set x | x in s
  }

  /** Strictly increasing: what `sorted()` returns for the members of a set. */
  ghost predicate StrictlySorted(s: seq<string>)
  {
    forall i, j :: 0 <= i < j < |s| ==> StrLt(s[i], s[j])
  }

  /** Adds `x` to a strictly increasing list, keeping it strictly increasing. */
  function InsertUnique(x: string, s: seq<string>): (r: seq<string>)
    requires StrictlySorted(s)
    ensures StrictlySorted(r)
    ensures Elems(r) == Elems(s) + {x}
  {
    if |s| == 0 then [x]
    else if x == s[0] then s
    else if StrLt(x, s[0]) then
      assert forall j :: 0 < j < |s| ==> StrLt(x, s[j]) by {
        forall j | 0 < j < |s| ensures StrLt(x, s[j]) {
          StrLtTransitive(x, s[0], s[j]);
        }
      }
      [x] + s
    else
      StrLtTotal(x, s[0]);
      var rest := InsertUnique(x, s[1..]);
      assert s == [s[0]] + s[1..];
      BoundKept(s[0], x, s[1..], rest);
      assert Elems([s[0]] + rest) == {s[0]} + Elems(rest);
      assert Elems(s) == {s[0]} + Elems(s[1..]);
      [s[0]] + rest
  }

  /** A lower bound of `s` and of `x` bounds everything `x` is inserted into `s` to make. */
  lemma BoundKept(lo: string, x: string, s: seq<string>, rest: seq<string>)
    requires forall j :: 0 <= j < |s| ==> StrLt(lo, s[j])
    requires StrLt(lo, x)
    requires Elems(rest) == Elems(s) + {x}
    ensures forall j :: 0 <= j < |rest| ==> StrLt(lo, rest[j])
  {
    forall j | 0 <= j < |rest| ensures StrLt(lo, rest[j]) {
      assert rest[j] in Elems(rest);
      if rest[j] != x {
        assert rest[j] in Elems(s);
      }
    }
  }

  /** `sorted(set(xs))`: the members of `xs`, each once, in increasing order. */
  function SortedSet(xs: seq<string>): (r: seq<string>)
    ensures StrictlySorted(r)
    ensures Elems(r) == Elems(xs)
  {
    if |xs| == 0 then []
    else
      assert xs == xs[..|xs| - 1] + [xs[|xs| - 1]];
      InsertUnique(xs[|xs| - 1], SortedSet(xs[..|xs| - 1]))
  }

  /** A strictly increasing list holds no value twice. */
  lemma StrictlySortedDistinct(s: seq<string>, i: int, j: int)
    requires StrictlySorted(s)
    requires 0 <= i < |s| && 0 <= j < |s| && i != j
    ensures s[i] != s[j]
  {
    if i < j {
      if s[i] == s[j] {
        StrLtIrreflexive(s[i]);
      }
    } else {
      if s[i] == s[j] {
        StrLtIrreflexive(s[i]);
      }
    }
  }

  /** A set has exactly one strictly increasing listing, so `sorted(set(...))`
      does not depend on the order in which the set was built. */
  lemma {:induction false} StrictlySortedUnique(a: seq<string>, b: seq<string>)
    requires StrictlySorted(a) && StrictlySorted(b)
    requires Elems(a) == Elems(b)
    ensures a == b
  {
    ElemsEmpty(a);
    ElemsEmpty(b);
    if |a| > 0 && |b| > 0 {
      assert b[0] in Elems(b) && a[0] in Elems(a);
      MinimumIsHead(a, b[0]);
      MinimumIsHead(b, a[0]);
      assert a[0] == b[0] by {
        if a[0] != b[0] {
          assert StrLt(a[0], b[0]) && StrLt(b[0], a[0]);
          StrLtAsymmetric(a[0], b[0]);
        }
      }
      assert Elems(a[1..]) == Elems(b[1..]) by {
        HeadNotInTail(a);
        HeadNotInTail(b);
        assert a == [a[0]] + a[1..] && b == [b[0]] + b[1..];
        assert Elems(a) == {a[0]} + Elems(a[1..]);
        assert Elems(b) == {b[0]} + Elems(b[1..]);
      }
      StrictlySortedUnique(a[1..], b[1..]);
      assert a == [a[0]] + a[1..] && b == [b[0]] + b[1..];
    }
  }

  lemma ElemsEmpty<T>(s: seq<T>)
    ensures Elems(s) == {} <==> |s| == 0
  {
    if |s| > 0 {
      assert s[0] in Elems(s);
    }
  }

  lemma MinimumIsHead(s: seq<string>, x: string)
    requires StrictlySorted(s) && x in s && |s| > 0
    ensures x == s[0] || StrLt(s[0], x)
  {
  }

  lemma HeadNotInTail(s: seq<string>)
    requires StrictlySorted(s) && |s| > 0
    ensures s[0] !in s[1..]
  {
    if s[0] in s[1..] {
      var k :| 0 <= k < |s[1..]| && s[1..][k] == s[0];
      StrictlySortedDistinct(s, 0, k + 1);
    }
  }

  /** `a < b` on `pathlib` paths: their parts compared as a list of strings. */
  predicate PathLt(a: seq<string>, b: seq<string>)
  {
    if |a| == 0 then |b| > 0
    else if |b| == 0 then false
    else if a[0] != b[0] then StrLt(a[0], b[0])
    else PathLt(a[1..], b[1..])
  }

  /** Path order is decided by the first part where the paths differ,
      compared as strings; a path comes before the paths below it. */
  lemma {:induction false} PathLtFirstDifference(a: seq<string>, b: seq<string>)
    ensures PathLt(a, b) <==> var k := CommonPrefix(a, b); k < |b| && (k == |a| || StrLt(a[k], b[k]))
  {
    if |a| > 0 && |b| > 0 && a[0] == b[0] {
      PathLtFirstDifference(a[1..], b[1..]);
    }
  }

  lemma {:induction false} PathLtIrreflexive(a: seq<string>)
    ensures !PathLt(a, a)
  {
    if |a| > 0 {
      PathLtIrreflexive(a[1..]);
    }
  }

  lemma {:induction false} PathLtTransitive(a: seq<string>, b: seq<string>, c: seq<string>)
    requires PathLt(a, b) && PathLt(b, c)
    ensures PathLt(a, c)
  {
    if |a| > 0 && |b| > 0 && |c| > 0 {
      if a[0] == b[0] == c[0] {
        PathLtTransitive(a[1..], b[1..], c[1..]);
      } else if a[0] != b[0] && b[0] != c[0] {
        StrLtTransitive(a[0], b[0], c[0]);
        if a[0] == c[0] {
          StrLtAsymmetric(a[0], b[0]);
        }
      }
    }
  }

  lemma {:induction false} PathLtTotal(a: seq<string>, b: seq<string>)
    requires a != b
    ensures PathLt(a, b) || PathLt(b, a)
  {
    if |a| > 0 && |b| > 0 {
      if a[0] == b[0] {
        assert a == [a[0]] + a[1..] && b == [b[0]] + b[1..];
        PathLtTotal(a[1..], b[1..]);
      } else {
        StrLtTotal(a[0], b[0]);
      }
    }
  }

  /** Non-decreasing: what `sorted()` returns for a list of paths. Paths
      found below one directory are all absolute or all relative, and
      such paths compare by their parts. */
  ghost predicate PathsSorted(s: seq<Path>)
  {
    forall i, j :: 0 <= i < j < |s| ==> !PathLt(s[j].parts, s[i].parts)
  }

  function InsertPath(x: Path, s: seq<Path>): (r: seq<Path>)
    requires PathsSorted(s)
    ensures PathsSorted(r)
    ensures multiset(r) == multiset(s) + multiset{x}
  {
    if |s| == 0 then [x]
    else if !PathLt(s[0].parts, x.parts) then
      NotAboveHead(x, s);
      [x] + s
    else
      var rest := InsertPath(x, s[1..]);
      assert s == [s[0]] + s[1..];
      HeadStaysFirst(x, s, rest);
      [s[0]] + rest
  }

  /** What is not above the head of a sorted list is not above any of it. */
  lemma NotAboveHead(x: Path, s: seq<Path>)
    requires PathsSorted(s) && |s| > 0 && !PathLt(s[0].parts, x.parts)
    ensures forall j :: 0 <= j < |s| ==> !PathLt(s[j].parts, x.parts)
  {
    forall j | 0 <= j < |s| ensures !PathLt(s[j].parts, x.parts) {
      if PathLt(s[j].parts, x.parts) && s[0].parts != s[j].parts {
        PathLtTotal(s[0].parts, s[j].parts);
        PathLtTransitive(s[0].parts, s[j].parts, x.parts);
      }
    }
  }

  /** Inserting into the tail something above the head keeps the head first. */
  lemma HeadStaysFirst(x: Path, s: seq<Path>, rest: seq<Path>)
    requires PathsSorted(s) && |s| > 0 && PathLt(s[0].parts, x.parts)
    requires multiset(rest) == multiset(s[1..]) + multiset{x}
    ensures forall j :: 0 <= j < |rest| ==> !PathLt(rest[j].parts, s[0].parts)
  {
    forall j | 0 <= j < |rest| ensures !PathLt(rest[j].parts, s[0].parts) {
      assert rest[j] in multiset(rest);
      if rest[j] != x {
        assert rest[j] in s[1..];
      } else {
        PathLtIrreflexive(x.parts);
        if PathLt(x.parts, s[0].parts) {
          PathLtTransitive(x.parts, s[0].parts, x.parts);
        }
      }
    }
  }

  /** Python's `sorted(paths)`: the same paths, in non-decreasing order. */
  function SortPaths(xs: seq<Path>): (r: seq<Path>)
    ensures PathsSorted(r)
    ensures multiset(r) == multiset(xs)
  {
    if |xs| == 0 then []
    else
      assert xs == xs[..|xs| - 1] + [xs[|xs| - 1]];
      InsertPath(xs[|xs| - 1], SortPaths(xs[..|xs| - 1]))
  }

  /** Paths that are all absolute or all relative have one sorted order:
      however they were collected, `sorted()` lists them the same way. */
  lemma {:induction false} PathsSortedUnique(a: seq<Path>, b: seq<Path>, abs: bool)
    requires PathsSorted(a) && PathsSorted(b)
    requires multiset(a) == multiset(b)
    requires forall i :: 0 <= i < |a| ==> a[i].isAbs == abs
    ensures a == b
  {
    if |a| == 0 {
      assert |b| == |multiset(b)| == 0;
    } else {
      assert |b| == |multiset(b)| == |a|;
      SortedHeadsEqual(a, b, abs);
      SortedTail(a);
      SortedTail(b);
      PathsSortedUnique(a[1..], b[1..], abs);
      assert a == [a[0]] + a[1..] && b == [b[0]] + b[1..];
    }
  }

  lemma SortedTail(a: seq<Path>)
    requires PathsSorted(a) && |a| > 0
    ensures PathsSorted(a[1..])
    ensures multiset(a[1..]) == multiset(a) - multiset{a[0]}
  {
    assert a == [a[0]] + a[1..];
  }

  /** Two sorted listings of the same paths start with the same path. */
  lemma SortedHeadsEqual(a: seq<Path>, b: seq<Path>, abs: bool)
    requires PathsSorted(a) && PathsSorted(b)
    requires multiset(a) == multiset(b) && |a| > 0 && |b| > 0
    requires forall i :: 0 <= i < |a| ==> a[i].isAbs == abs
    ensures a[0] == b[0]
  {
    assert a[0] in multiset(b) && b[0] in multiset(a);
    var i :| 0 <= i < |b| && b[i] == a[0];
    var j :| 0 <= j < |a| && a[j] == b[0];
    PathLtIrreflexive(a[0].parts);
    PathLtIrreflexive(b[0].parts);
    assert !PathLt(a[0].parts, b[0].parts) by {
      if i > 0 {
        assert !PathLt(b[i].parts, b[0].parts);
      }
    }
    assert !PathLt(b[0].parts, a[0].parts) by {
      if j > 0 {
        assert !PathLt(a[j].parts, a[0].parts);
      }
    }
    if a[0].parts != b[0].parts {
      PathLtTotal(a[0].parts, b[0].parts);
    }
    assert a[0].isAbs == abs == a[j].isAbs;
  }
}
