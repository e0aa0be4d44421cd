/** Inference of the top-level module names to snapshot from runtime values
    (`src/nshsnap/_resolve_modules.py`).

    Python values are a closed datatype of the shapes the resolver tells
    apart. The interpreter's set of standard-library and builtin module
    names is the parameter `std`. The memo table is threaded explicitly as
    a map from a defining-module name to the set computed for it. */
module ResolveModules {
  import opened Wrappers
  import opened Text
  import opened Sorting

  /** The `deep` argument. */
  datatype Depth = Deep | DeepBuiltin | Shallow

  /** A class: the `__module__` it was defined in and its `__bases__`. */
  datatype PyType = PyType(definedIn: string, bases: seq<PyType>)

  /** A runtime value, by the branch of the resolver that handles it.
      `attr` is the value's own `__module__` attribute when it has one. */
  datatype Value =
    | TypeV(t: PyType)
      /** int, float, str, bool, complex, bytes, bytearray or None, of class `ty` */
    | Prim(ty: PyType)
      /** an `abc.Mapping` of class `ty`, its items in iteration order */
    | MapV(ty: PyType, attr: Option<string>, entries: seq<(Value, Value)>)
      /** any other `abc.Collection` of class `ty`, its elements in iteration order */
    | CollV(ty: PyType, attr: Option<string>, items: seq<Value>)
      /** anything else, of class `ty` */
    | Obj(ty: PyType, attr: Option<string>)

  /** Memo table: defining-module name to the names computed for it. */
  type Cache = map<string, set<string>>

  /** The synthetic module of the entry script. */
  const MainModule: string := "__main__"

  /** `_resolve_leaf_module`: the top-level segment of `name`, unless it is
      a builtin or standard-library name and those are ignored. */
  function LeafModule(name: string, ignoreBuiltin: bool, std: set<string>): (r: seq<string>)
    ensures |r| <= 1
    ensures forall x :: x in r ==> |x| <= |name| && x == name[..|x|] && '.' !in x && (|x| == |name| || name[|x|] == '.')
    ensures r == [] <==> ignoreBuiltin && UpTo(name, '.') in std
  {
    var top := UpTo(name, '.');
    if ignoreBuiltin && top in std then [] else [top]
  }

  /** The names `LeafModule` lists, as a set. */
  function LeafSet(name: string, ignoreBuiltin: bool, std: set<string>): set<string>
  {
    var top := UpTo(name, '.');
    if ignoreBuiltin && top in std then {} else {top}
  }

  lemma LeafSetLists(name: string, ignoreBuiltin: bool, std: set<string>)
    ensures LeafSet(name, ignoreBuiltin, std) == Elems(LeafModule(name, ignoreBuiltin, std))
  {
  }

  /** Every name is a top-level segment, and not a builtin one when those are ignored. */
  ghost predicate Names(s: set<string>, ignoreBuiltin: bool, std: set<string>)
  {
    forall x :: x in s ==> '.' !in x && (ignoreBuiltin ==> x !in std)
  }

  /** What every memo entry satisfies: it holds its own key's leaf module
      and only acceptable names. */
  ghost predicate CacheOk(cache: Cache, ignoreBuiltin: bool, std: set<string>)
  {
    forall m :: m in cache ==> LeafSet(m, ignoreBuiltin, std) <= cache[m] && Names(cache[m], ignoreBuiltin, std)
  }

  /** Entries present before a call are still there, unchanged, after it. */
  ghost predicate Extends(before: Cache, after: Cache)
  {
    forall m :: m in before ==> m in after && after[m] == before[m]
  }

  lemma ExtendsTrans(a: Cache, b: Cache, c: Cache, d: Cache)
    requires Extends(a, b) && Extends(b, c) && Extends(c, d)
    ensures Extends(a, d)
  {
  }

  lemma NamesUnion(a: set<string>, b: set<string>, c: set<string>, ignoreBuiltin: bool, std: set<string>)
    ensures Names(a, ignoreBuiltin, std) && Names(b, ignoreBuiltin, std) && Names(c, ignoreBuiltin, std)
      ==> Names(a + b + c, ignoreBuiltin, std)
  {
  }

  lemma LeafNames(name: string, ignoreBuiltin: bool, std: set<string>)
    ensures Names(LeafSet(name, ignoreBuiltin, std), ignoreBuiltin, std)
  {
  }

  /** `_resolve_type`: memoised on the defining-module name; the bases are
      visited only under `Deep`. */
  function ResolveType(t: PyType, cache: Cache, ignoreBuiltin: bool, std: set<string>, depth: Depth)
    : (r: (set<string>, Cache))
    ensures t.definedIn in cache ==> r == (cache[t.definedIn], cache)
    ensures t.definedIn !in cache ==>
      t.definedIn in r.1 && r.1[t.definedIn] == r.0 && LeafSet(t.definedIn, ignoreBuiltin, std) <= r.0
    ensures depth != Deep && t.definedIn !in cache ==>
      r == (LeafSet(t.definedIn, ignoreBuiltin, std), cache[t.definedIn := LeafSet(t.definedIn, ignoreBuiltin, std)])
    ensures Extends(cache, r.1)
    ensures CacheOk(cache, ignoreBuiltin, std) ==>
      CacheOk(r.1, ignoreBuiltin, std) && Names(r.0, ignoreBuiltin, std)
      && LeafSet(t.definedIn, ignoreBuiltin, std) <= r.0
    decreases t, 1, 0
  {
    if t.definedIn in cache then (cache[t.definedIn], cache)
    else
      var own := LeafSet(t.definedIn, ignoreBuiltin, std);
      LeafNames(t.definedIn, ignoreBuiltin, std);
      var (mods, cache') := if depth == Deep then ResolveBases(t, 0, own, cache, ignoreBuiltin, std) else (own, cache);
      (mods, cache'[t.definedIn := mods])
  }

  /** The loop over `__bases__` in `_resolve_type`, from base `i` on. */
  function ResolveBases(t: PyType, i: nat, acc: set<string>, cache: Cache, ignoreBuiltin: bool, std: set<string>)
    : (r: (set<string>, Cache))
    requires i <= |t.bases|
    ensures acc <= r.0
    ensures Extends(cache, r.1)
    ensures CacheOk(cache, ignoreBuiltin, std) && Names(acc, ignoreBuiltin, std) ==>
      CacheOk(r.1, ignoreBuiltin, std) && Names(r.0, ignoreBuiltin, std)
    decreases t, 0, |t.bases| - i
  {
    if i == |t.bases| then (acc, cache)
    else
      var (mods, cache') := ResolveType(t.bases[i], cache, ignoreBuiltin, std, Deep);
      ResolveBases(t, i + 1, acc + mods, cache', ignoreBuiltin, std)
  }

  /** `_filter_container_deep`: whether the elements of a container of class `ty` are visited. */
  function FilterContainerDeep(ty: PyType, depth: Depth, std: set<string>): (b: bool)
    ensures depth == Deep ==> b
    ensures depth == Shallow ==> !b
    ensures depth == DeepBuiltin ==> (b <==> UpTo(ty.definedIn, '.') in std)
  {
    match depth
    case Deep => true
    case DeepBuiltin => LeafModule(ty.definedIn, true, std) == []
    case Shallow => false
  }

  /** The `hasattr(value, "__module__")` branch. */
  function AttrModules(attr: Option<string>, ignoreBuiltin: bool, std: set<string>): (r: set<string>)
    ensures attr.None? ==> r == {}
    ensures attr.Some? ==> r <= {UpTo(attr.value, '.')}
    ensures attr.Some? ==> (UpTo(attr.value, '.') in r <==> !(ignoreBuiltin && UpTo(attr.value, '.') in std))
  {
    match attr
    case Some(m) => LeafSet(m, ignoreBuiltin, std)
    case None => {}
  }

  /** `type`, the class of every class: defined in `builtins`, based on `object`. */
  const MetaClass: PyType := PyType("builtins", [PyType("builtins", [])])

  /** `type(v)`. */
  function ClassOf(v: Value): (r: PyType)
    ensures v.TypeV? ==> r.definedIn == "builtins" && r == MetaClass
    ensures !v.TypeV? ==> r == v.ty
  {
    if v.TypeV? then MetaClass else v.ty
  }

  /** The class `_resolve_modules_from_value` resolves last for a value that
      is not a class. The loop over a mapping's items rebinds the name
      `value`, so after a visited non-empty mapping it is the class of the
      mapping's last value, not the mapping's own. */
  function TypeAfter(v: Value, depth: Depth, std: set<string>): (r: PyType)
    requires !v.TypeV?
    ensures r != v.ty ==> v.MapV? && FilterContainerDeep(v.ty, depth, std) && |v.entries| > 0
    ensures v.MapV? && FilterContainerDeep(v.ty, depth, std) && |v.entries| > 0 ==>
      r == ClassOf(v.entries[|v.entries| - 1].1)
  {
    if v.MapV? && FilterContainerDeep(v.ty, depth, std) && |v.entries| > 0
    then ClassOf(v.entries[|v.entries| - 1].1)
    else v.ty
  }

  /** A memo in which every entry is its key's leaf module alone, as
      everything stored below `Deep` is. */
  ghost predicate CacheLeaf(cache: Cache, ignoreBuiltin: bool, std: set<string>)
  {
    forall m :: m in cache ==> cache[m] == LeafSet(m, ignoreBuiltin, std)
  }

  // ---- the leaf reference: the resolver as written, no bases visited ----

  /** What `_resolve_modules_from_value` collects when every class met
      contributes its own leaf module only: the entered contents, the
      `__module__` attribute, and the class resolved last (`TypeAfter`). */
  function LeafRef(v: Value, ignoreBuiltin: bool, std: set<string>, depth: Depth): set<string>
    decreases v, 2, 0, 0
  {
    if v.TypeV? then LeafSet(v.t.definedIn, ignoreBuiltin, std)
    else
      (if v.Prim? then {} else ContentsLeaf(v, ignoreBuiltin, std, depth))
      + LeafSet(TypeAfter(v, depth, std).definedIn, ignoreBuiltin, std)
  }

  function ContentsLeaf(v: Value, ignoreBuiltin: bool, std: set<string>, depth: Depth): set<string>
    requires v.MapV? || v.CollV? || v.Obj?
    decreases v, 1, 0, 0
  {
    if v.Obj? || !FilterContainerDeep(v.ty, depth, std) then AttrModules(v.attr, ignoreBuiltin, std)
    else if v.MapV? then EntriesLeaf(v, 0, ignoreBuiltin, std)
    else ItemsLeaf(v, 0, ignoreBuiltin, std)
  }

  function EntriesLeaf(v: Value, i: nat, ignoreBuiltin: bool, std: set<string>): set<string>
    requires v.MapV? && i <= |v.entries|
    decreases v, 0, |v.entries| - i, 1
  {
    if i == |v.entries| then {}
    else EntryLeaf(v, i, ignoreBuiltin, std) + EntriesLeaf(v, i + 1, ignoreBuiltin, std)
  }

  /** The leaf references of one item's key and value. */
  function EntryLeaf(v: Value, i: nat, ignoreBuiltin: bool, std: set<string>): set<string>
    requires v.MapV? && i < |v.entries|
    decreases v, 0, |v.entries| - i, 0
  {
    LeafRef(v.entries[i].0, ignoreBuiltin, std, DeepBuiltin) + LeafRef(v.entries[i].1, ignoreBuiltin, std, DeepBuiltin)
  }

  function ItemsLeaf(v: Value, i: nat, ignoreBuiltin: bool, std: set<string>): set<string>
    requires v.CollV? && i <= |v.items|
    decreases v, 0, |v.items| - i, 0
  {
    if i == |v.items| then {}
    else LeafRef(v.items[i], ignoreBuiltin, std, DeepBuiltin) + ItemsLeaf(v, i + 1, ignoreBuiltin, std)
  }

  /** `_resolve_modules_from_value`: the branch for the value's shape, then,
      for anything but a class, the value's own class at the default depth
      `DeepBuiltin`. */
  function ResolveValue(v: Value, cache: Cache, ignoreBuiltin: bool, std: set<string>, depth: Depth)
    : (r: (set<string>, Cache))
    ensures Extends(cache, r.1)
    ensures v.TypeV? ==> r == ResolveType(v.t, cache, ignoreBuiltin, std, depth)
    ensures CacheOk(cache, ignoreBuiltin, std) ==>
      CacheOk(r.1, ignoreBuiltin, std) && Names(r.0, ignoreBuiltin, std)
    ensures CacheOk(cache, ignoreBuiltin, std) && !v.TypeV? ==>
      LeafSet(TypeAfter(v, depth, std).definedIn, ignoreBuiltin, std) <= r.0
    ensures v.Obj? ==> AttrModules(v.attr, ignoreBuiltin, std) <= r.0
    decreases v, 2, 0
  {
    if v.TypeV? then ResolveType(v.t, cache, ignoreBuiltin, std, depth)
    else
      var (inner, cache1) := if v.Prim? then ({}, cache) else Contents(v, cache, ignoreBuiltin, std, depth);
      var (mods, cache2) := ResolveType(TypeAfter(v, depth, std), cache1, ignoreBuiltin, std, DeepBuiltin);
      (inner + mods, cache2)
  }

  /** The mapping, collection and `__module__` branches of
      `_resolve_modules_from_value`. Elements are visited at the default
      depth `DeepBuiltin`, whatever `depth` is. */
  function Contents(v: Value, cache: Cache, ignoreBuiltin: bool, std: set<string>, depth: Depth)
    : (r: (set<string>, Cache))
    requires v.MapV? || v.CollV? || v.Obj?
    ensures Extends(cache, r.1)
    ensures CacheOk(cache, ignoreBuiltin, std) ==>
      CacheOk(r.1, ignoreBuiltin, std) && Names(r.0, ignoreBuiltin, std)
    ensures v.Obj? || !FilterContainerDeep(v.ty, depth, std) ==> r == (AttrModules(v.attr, ignoreBuiltin, std), cache)
    decreases v, 1, 0
  {
    LeafNames(if v.attr.Some? then v.attr.value else "", ignoreBuiltin, std);
    if v.Obj? || !FilterContainerDeep(v.ty, depth, std) then (AttrModules(v.attr, ignoreBuiltin, std), cache)
    else if v.MapV? then ResolveEntries(v, 0, {}, cache, ignoreBuiltin, std)
    else ResolveItems(v, 0, {}, cache, ignoreBuiltin, std)
  }

  /** The loop over a mapping's items, key before value, from item `i` on. */
  function ResolveEntries(v: Value, i: nat, acc: set<string>, cache: Cache, ignoreBuiltin: bool, std: set<string>)
    : (r: (set<string>, Cache))
    requires v.MapV? && i <= |v.entries|
    ensures acc <= r.0
    ensures Extends(cache, r.1)
    ensures CacheOk(cache, ignoreBuiltin, std) && Names(acc, ignoreBuiltin, std) ==>
      CacheOk(r.1, ignoreBuiltin, std) && Names(r.0, ignoreBuiltin, std)
    decreases v, 0, |v.entries| - i
  {
    if i == |v.entries| then (acc, cache)
    else
      var key := ResolveValue(v.entries[i].0, cache, ignoreBuiltin, std, DeepBuiltin);
      var val := ResolveValue(v.entries[i].1, key.1, ignoreBuiltin, std, DeepBuiltin);
      var rest := ResolveEntries(v, i + 1, acc + key.0 + val.0, val.1, ignoreBuiltin, std);
      ExtendsTrans(cache, key.1, val.1, rest.1);
      NamesUnion(acc, key.0, val.0, ignoreBuiltin, std);
      rest
  }

  /** The loop over a collection's elements, from element `i` on. */
  function ResolveItems(v: Value, i: nat, acc: set<string>, cache: Cache, ignoreBuiltin: bool, std: set<string>)
    : (r: (set<string>, Cache))
    requires v.CollV? && i <= |v.items|
    ensures acc <= r.0
    ensures Extends(cache, r.1)
    ensures CacheOk(cache, ignoreBuiltin, std) && Names(acc, ignoreBuiltin, std) ==>
      CacheOk(r.1, ignoreBuiltin, std) && Names(r.0, ignoreBuiltin, std)
    decreases v, 0, |v.items| - i
  {
    if i == |v.items| then (acc, cache)
    else
      var item := ResolveValue(v.items[i], cache, ignoreBuiltin, std, DeepBuiltin);
      ResolveItems(v, i + 1, acc + item.0, item.1, ignoreBuiltin, std)
  }

  // ---- what the resolver as written is proved to collect ----

  /** The bases loop adds the own leaf module of every base from `i` on. */
  lemma {:induction false} BasesCollected(t: PyType, i: nat, acc: set<string>, cache: Cache,
                                          ignoreBuiltin: bool, std: set<string>, j: nat)
    requires i <= j < |t.bases| && CacheOk(cache, ignoreBuiltin, std)
    ensures LeafSet(t.bases[j].definedIn, ignoreBuiltin, std) <= ResolveBases(t, i, acc, cache, ignoreBuiltin, std).0
    decreases |t.bases| - i
  {
    var b := ResolveType(t.bases[i], cache, ignoreBuiltin, std, Deep);
    var rest := ResolveBases(t, i + 1, acc + b.0, b.1, ignoreBuiltin, std);
    assert ResolveBases(t, i, acc, cache, ignoreBuiltin, std) == rest by {
      BasesStep(t, i, acc, cache, ignoreBuiltin, std);
    }
    if i < j {
      BasesCollected(t, i + 1, acc + b.0, b.1, ignoreBuiltin, std, j);
    } else {
      SubsetOfUnion(LeafSet(t.bases[i].definedIn, ignoreBuiltin, std), b.0, acc, rest.0);
    }
  }

  lemma SubsetOfUnion(a: set<string>, b: set<string>, acc: set<string>, c: set<string>)
    requires a <= b && acc + b <= c
    ensures a <= c
  {
  }

  /** Under `Deep`, a class missing from the memo collects the leaf module
      of any of its direct bases `j` as well as its own. (A base's own bases
      can still be lost to the memo, see below.) */
  lemma DeepMissAddsBases(t: PyType, cache: Cache, ignoreBuiltin: bool, std: set<string>, j: nat)
    requires CacheOk(cache, ignoreBuiltin, std) && t.definedIn !in cache && j < |t.bases|
    ensures LeafSet(t.bases[j].definedIn, ignoreBuiltin, std) <= ResolveType(t, cache, ignoreBuiltin, std, Deep).0
    ensures LeafSet(t.definedIn, ignoreBuiltin, std) <= ResolveType(t, cache, ignoreBuiltin, std, Deep).0
  {
    TypeMissDeep(t, cache, ignoreBuiltin, std);
    BasesCollected(t, 0, LeafSet(t.definedIn, ignoreBuiltin, std), cache, ignoreBuiltin, std, j);
  }

  /** Whatever a well-formed memo holds, a value's result includes its leaf
      reference: the entered contents, keys and values, the `__module__`
      attribute and the class resolved last. */
  lemma {:induction false} ValueCollected(v: Value, cache: Cache, ignoreBuiltin: bool, std: set<string>, depth: Depth)
    requires CacheOk(cache, ignoreBuiltin, std)
    ensures LeafRef(v, ignoreBuiltin, std, depth) <= ResolveValue(v, cache, ignoreBuiltin, std, depth).0
    decreases v, 2, 0, 0
  {
    if !v.TypeV? {
      InnerCollected(v, cache, ignoreBuiltin, std, depth);
      OwnClassCollected(v, cache, ignoreBuiltin, std, depth);
    }
  }

  /** Given the contents' part, a non-class value's result also holds the
      leaf module of the class resolved last. */
  lemma OwnClassCollected(v: Value, cache: Cache, ignoreBuiltin: bool, std: set<string>, depth: Depth)
    requires !v.TypeV? && CacheOk(cache, ignoreBuiltin, std)
    requires var inner := if v.Prim? then ({}, cache) else Contents(v, cache, ignoreBuiltin, std, depth);
      (if v.Prim? then {} else ContentsLeaf(v, ignoreBuiltin, std, depth)) <= inner.0
      && CacheOk(inner.1, ignoreBuiltin, std)
    ensures LeafRef(v, ignoreBuiltin, std, depth) <= ResolveValue(v, cache, ignoreBuiltin, std, depth).0
  {
    var inner := if v.Prim? then ({}, cache) else Contents(v, cache, ignoreBuiltin, std, depth);
    var own := ResolveType(TypeAfter(v, depth, std), inner.1, ignoreBuiltin, std, DeepBuiltin);
    var contents := if v.Prim? then {} else ContentsLeaf(v, ignoreBuiltin, std, depth);
    var leaf := LeafSet(TypeAfter(v, depth, std).definedIn, ignoreBuiltin, std);
    assert ResolveValue(v, cache, ignoreBuiltin, std, depth).0 == inner.0 + own.0 by {
      ValueSplit(v, cache, ignoreBuiltin, std, depth);
    }
    assert LeafRef(v, ignoreBuiltin, std, depth) == contents + leaf by {
      LeafRefSplit(v, ignoreBuiltin, std, depth);
    }
    UnionMono(contents, leaf, inner.0, own.0);
  }

  /** The part of a non-class value's result that comes before its own class. */
  lemma {:induction false} InnerCollected(v: Value, cache: Cache, ignoreBuiltin: bool, std: set<string>, depth: Depth)
    requires !v.TypeV? && CacheOk(cache, ignoreBuiltin, std)
    ensures var inner := if v.Prim? then ({}, cache) else Contents(v, cache, ignoreBuiltin, std, depth);
      (if v.Prim? then {} else ContentsLeaf(v, ignoreBuiltin, std, depth)) <= inner.0
      && CacheOk(inner.1, ignoreBuiltin, std)
    decreases v, 1, 1, 0
  {
    if !v.Prim? {
      ContentsCollected(v, cache, ignoreBuiltin, std, depth);
    }
  }

  lemma LeafRefSplit(v: Value, ignoreBuiltin: bool, std: set<string>, depth: Depth)
    requires !v.TypeV?
    ensures LeafRef(v, ignoreBuiltin, std, depth)
         == (if v.Prim? then {} else ContentsLeaf(v, ignoreBuiltin, std, depth))
            + LeafSet(TypeAfter(v, depth, std).definedIn, ignoreBuiltin, std)
  {
  }

  lemma UnionMono(a: set<string>, b: set<string>, x: set<string>, y: set<string>)
    requires a <= x && b <= y
    ensures a + b <= x + y
  {
  }

  lemma {:induction false} ContentsCollected(v: Value, cache: Cache, ignoreBuiltin: bool, std: set<string>, depth: Depth)
    requires v.MapV? || v.CollV? || v.Obj?
    requires CacheOk(cache, ignoreBuiltin, std)
    ensures ContentsLeaf(v, ignoreBuiltin, std, depth) <= Contents(v, cache, ignoreBuiltin, std, depth).0
    decreases v, 1, 0, 0
  {
    if v.Obj? || !FilterContainerDeep(v.ty, depth, std) {
    } else if v.MapV? {
      EntriesCollected(v, 0, {}, cache, ignoreBuiltin, std);
    } else {
      ItemsCollected(v, 0, {}, cache, ignoreBuiltin, std);
    }
  }

  lemma {:induction false} EntriesCollected(v: Value, i: nat, acc: set<string>, cache: Cache,
                                            ignoreBuiltin: bool, std: set<string>)
    requires v.MapV? && i <= |v.entries| && CacheOk(cache, ignoreBuiltin, std)
    ensures acc + EntriesLeaf(v, i, ignoreBuiltin, std) <= ResolveEntries(v, i, acc, cache, ignoreBuiltin, std).0
    decreases v, 0, |v.entries| - i, 1
  {
    if i < |v.entries| {
      var key := ResolveValue(v.entries[i].0, cache, ignoreBuiltin, std, DeepBuiltin);
      var val := ResolveValue(v.entries[i].1, key.1, ignoreBuiltin, std, DeepBuiltin);
      var here := key.0 + val.0;
      var rest := ResolveEntries(v, i + 1, acc + here, val.1, ignoreBuiltin, std);
      assert ResolveEntries(v, i, acc, cache, ignoreBuiltin, std) == rest by {
        EntriesStep(v, i, acc, cache, ignoreBuiltin, std);
        assert acc + key.0 + val.0 == acc + here;
      }
      assert EntryLeaf(v, i, ignoreBuiltin, std) <= here && CacheOk(val.1, ignoreBuiltin, std) by {
        PairCollected(v, i, cache, ignoreBuiltin, std);
      }
      assert acc + here + EntriesLeaf(v, i + 1, ignoreBuiltin, std) <= rest.0 by {
        EntriesCollected(v, i + 1, acc + here, val.1, ignoreBuiltin, std);
      }
      assert EntriesLeaf(v, i, ignoreBuiltin, std) == EntryLeaf(v, i, ignoreBuiltin, std) + EntriesLeaf(v, i + 1, ignoreBuiltin, std) by {
        EntriesLeafStep(v, i, ignoreBuiltin, std);
      }
      UnionBound(acc, EntryLeaf(v, i, ignoreBuiltin, std), {}, here, {}, EntriesLeaf(v, i + 1, ignoreBuiltin, std), rest.0);
    }
  }

  /** One item of a mapping, key then value, from a well-formed memo. */
  lemma {:induction false} PairCollected(v: Value, i: nat, cache: Cache, ignoreBuiltin: bool, std: set<string>)
    requires v.MapV? && i < |v.entries| && CacheOk(cache, ignoreBuiltin, std)
    ensures var key := ResolveValue(v.entries[i].0, cache, ignoreBuiltin, std, DeepBuiltin);
      var val := ResolveValue(v.entries[i].1, key.1, ignoreBuiltin, std, DeepBuiltin);
      EntryLeaf(v, i, ignoreBuiltin, std) <= key.0 + val.0 && CacheOk(val.1, ignoreBuiltin, std)
    decreases v, 0, |v.entries| - i, 0
  {
    var key := ResolveValue(v.entries[i].0, cache, ignoreBuiltin, std, DeepBuiltin);
    ValueCollected(v.entries[i].0, cache, ignoreBuiltin, std, DeepBuiltin);
    ValueCollected(v.entries[i].1, key.1, ignoreBuiltin, std, DeepBuiltin);
  }

  lemma {:induction false} ItemsCollected(v: Value, i: nat, acc: set<string>, cache: Cache,
                                          ignoreBuiltin: bool, std: set<string>)
    requires v.CollV? && i <= |v.items| && CacheOk(cache, ignoreBuiltin, std)
    ensures acc + ItemsLeaf(v, i, ignoreBuiltin, std) <= ResolveItems(v, i, acc, cache, ignoreBuiltin, std).0
    decreases v, 0, |v.items| - i, 0
  {
    if i < |v.items| {
      var item := ResolveValue(v.items[i], cache, ignoreBuiltin, std, DeepBuiltin);
      var rest := ResolveItems(v, i + 1, acc + item.0, item.1, ignoreBuiltin, std);
      assert ResolveItems(v, i, acc, cache, ignoreBuiltin, std) == rest by {
        ItemsStep(v, i, acc, cache, ignoreBuiltin, std);
      }
      assert ItemsLeaf(v, i, ignoreBuiltin, std)
          == LeafRef(v.items[i], ignoreBuiltin, std, DeepBuiltin) + ItemsLeaf(v, i + 1, ignoreBuiltin, std) by {
        ItemsLeafStep(v, i, ignoreBuiltin, std);
      }
      assert LeafRef(v.items[i], ignoreBuiltin, std, DeepBuiltin) <= item.0 by {
        ValueCollected(v.items[i], cache, ignoreBuiltin, std, DeepBuiltin);
      }
      assert acc + item.0 + ItemsLeaf(v, i + 1, ignoreBuiltin, std) <= rest.0 by {
        ItemsCollected(v, i + 1, acc + item.0, item.1, ignoreBuiltin, std);
      }
      UnionBound(acc, LeafRef(v.items[i], ignoreBuiltin, std, DeepBuiltin), {}, item.0, {},
                 ItemsLeaf(v, i + 1, ignoreBuiltin, std), rest.0);
    }
  }

  /** `a <= x`, `b <= y` and `acc + x + y + e <= r` give `acc + (a + b + e) <= r`. */
  lemma UnionBound(acc: set<string>, a: set<string>, b: set<string>, x: set<string>, y: set<string>,
                   e: set<string>, r: set<string>)
    requires a <= x && b <= y && acc + x + y + e <= r
    ensures acc + (a + b + e) <= r
  {
  }

  lemma EntriesStep(v: Value, i: nat, acc: set<string>, cache: Cache, ignoreBuiltin: bool, std: set<string>)
    requires v.MapV? && i < |v.entries|
    ensures var key := ResolveValue(v.entries[i].0, cache, ignoreBuiltin, std, DeepBuiltin);
      var val := ResolveValue(v.entries[i].1, key.1, ignoreBuiltin, std, DeepBuiltin);
      ResolveEntries(v, i, acc, cache, ignoreBuiltin, std)
      == ResolveEntries(v, i + 1, acc + key.0 + val.0, val.1, ignoreBuiltin, std)
  {
  }

  lemma ItemsStep(v: Value, i: nat, acc: set<string>, cache: Cache, ignoreBuiltin: bool, std: set<string>)
    requires v.CollV? && i < |v.items|
    ensures var item := ResolveValue(v.items[i], cache, ignoreBuiltin, std, DeepBuiltin);
      ResolveItems(v, i, acc, cache, ignoreBuiltin, std) == ResolveItems(v, i + 1, acc + item.0, item.1, ignoreBuiltin, std)
  {
  }

  lemma ValueSplit(v: Value, cache: Cache, ignoreBuiltin: bool, std: set<string>, depth: Depth)
    requires !v.TypeV?
    ensures var inner := if v.Prim? then ({}, cache) else Contents(v, cache, ignoreBuiltin, std, depth);
      var own := ResolveType(TypeAfter(v, depth, std), inner.1, ignoreBuiltin, std, DeepBuiltin);
      ResolveValue(v, cache, ignoreBuiltin, std, depth) == (inner.0 + own.0, own.1)
  {
  }

  lemma EntriesLeafStep(v: Value, i: nat, ignoreBuiltin: bool, std: set<string>)
    requires v.MapV? && i < |v.entries|
    ensures EntriesLeaf(v, i, ignoreBuiltin, std) == EntryLeaf(v, i, ignoreBuiltin, std) + EntriesLeaf(v, i + 1, ignoreBuiltin, std)
  {
  }

  lemma ItemsLeafStep(v: Value, i: nat, ignoreBuiltin: bool, std: set<string>)
    requires v.CollV? && i < |v.items|
    ensures ItemsLeaf(v, i, ignoreBuiltin, std)
         == LeafRef(v.items[i], ignoreBuiltin, std, DeepBuiltin) + ItemsLeaf(v, i + 1, ignoreBuiltin, std)
  {
  }

  lemma {:induction false} EntriesLeafHas(v: Value, i: nat, j: nat, ignoreBuiltin: bool, std: set<string>)
    requires v.MapV? && i <= j < |v.entries|
    ensures EntryLeaf(v, j, ignoreBuiltin, std) <= EntriesLeaf(v, i, ignoreBuiltin, std)
    decreases j - i
  {
    var first := EntryLeaf(v, i, ignoreBuiltin, std);
    var rest := EntriesLeaf(v, i + 1, ignoreBuiltin, std);
    assert EntriesLeaf(v, i, ignoreBuiltin, std) == first + rest by {
      EntriesLeafStep(v, i, ignoreBuiltin, std);
    }
    if i < j {
      assert EntryLeaf(v, j, ignoreBuiltin, std) <= rest by {
        EntriesLeafHas(v, i + 1, j, ignoreBuiltin, std);
      }
      SubsetOfUnion(EntryLeaf(v, j, ignoreBuiltin, std), rest, first, first + rest);
    } else {
      SubsetOfUnion(first, first, rest, rest + first);
    }
  }

  lemma {:induction false} ItemsLeafHas(v: Value, i: nat, j: nat, ignoreBuiltin: bool, std: set<string>)
    requires v.CollV? && i <= j < |v.items|
    ensures LeafRef(v.items[j], ignoreBuiltin, std, DeepBuiltin) <= ItemsLeaf(v, i, ignoreBuiltin, std)
    decreases j - i
  {
    var here := LeafRef(v.items[j], ignoreBuiltin, std, DeepBuiltin);
    var first := LeafRef(v.items[i], ignoreBuiltin, std, DeepBuiltin);
    var rest := ItemsLeaf(v, i + 1, ignoreBuiltin, std);
    assert ItemsLeaf(v, i, ignoreBuiltin, std) == first + rest by {
      ItemsLeafStep(v, i, ignoreBuiltin, std);
    }
    if i < j {
      assert here <= rest by {
        ItemsLeafHas(v, i + 1, j, ignoreBuiltin, std);
      }
      SubsetOfUnion(here, rest, first, first + rest);
    } else {
      SubsetOfUnion(here, first, rest, rest + first);
    }
  }

  /** A mapping whose items are visited contributes every key and every
      value, each resolved at the default depth. */
  lemma MappingCollectsEntries(v: Value, cache: Cache, ignoreBuiltin: bool, std: set<string>, depth: Depth, j: nat)
    requires v.MapV? && FilterContainerDeep(v.ty, depth, std) && j < |v.entries|
    requires CacheOk(cache, ignoreBuiltin, std)
    ensures LeafRef(v.entries[j].0, ignoreBuiltin, std, DeepBuiltin) + LeafRef(v.entries[j].1, ignoreBuiltin, std, DeepBuiltin)
            <= ResolveValue(v, cache, ignoreBuiltin, std, depth).0
  {
    EntriesLeafHas(v, 0, j, ignoreBuiltin, std);
    ValueCollected(v, cache, ignoreBuiltin, std, depth);
  }

  /** A collection whose elements are visited contributes every element,
      each resolved at the default depth. */
  lemma CollectionCollectsItems(v: Value, cache: Cache, ignoreBuiltin: bool, std: set<string>, depth: Depth, j: nat)
    requires v.CollV? && FilterContainerDeep(v.ty, depth, std) && j < |v.items|
    requires CacheOk(cache, ignoreBuiltin, std)
    ensures LeafRef(v.items[j], ignoreBuiltin, std, DeepBuiltin) <= ResolveValue(v, cache, ignoreBuiltin, std, depth).0
  {
    ItemsLeafHas(v, 0, j, ignoreBuiltin, std);
    ValueCollected(v, cache, ignoreBuiltin, std, depth);
  }

  /** Starting from a memo of leaves, every call except a class resolved
      under `Deep` computes exactly its leaf reference and stores leaves only. */
  lemma {:induction false} ValueLeafOnly(v: Value, cache: Cache, ignoreBuiltin: bool, std: set<string>, depth: Depth)
    requires CacheLeaf(cache, ignoreBuiltin, std) && !(v.TypeV? && depth == Deep)
    ensures var r := ResolveValue(v, cache, ignoreBuiltin, std, depth);
      r.0 == LeafRef(v, ignoreBuiltin, std, depth) && CacheLeaf(r.1, ignoreBuiltin, std)
    decreases v, 2, 0, 0
  {
    if !v.TypeV? {
      var inner := if v.Prim? then ({}, cache) else Contents(v, cache, ignoreBuiltin, std, depth);
      var own := ResolveType(TypeAfter(v, depth, std), inner.1, ignoreBuiltin, std, DeepBuiltin);
      var contents := if v.Prim? then {} else ContentsLeaf(v, ignoreBuiltin, std, depth);
      assert ResolveValue(v, cache, ignoreBuiltin, std, depth) == (inner.0 + own.0, own.1) by {
        ValueSplit(v, cache, ignoreBuiltin, std, depth);
      }
      assert LeafRef(v, ignoreBuiltin, std, depth) == contents + LeafSet(TypeAfter(v, depth, std).definedIn, ignoreBuiltin, std) by {
        LeafRefSplit(v, ignoreBuiltin, std, depth);
      }
      assert inner.0 == contents && CacheLeaf(inner.1, ignoreBuiltin, std) by {
        if !v.Prim? {
          ContentsLeafOnly(v, cache, ignoreBuiltin, std, depth);
        }
      }
    }
  }

  lemma {:induction false} ContentsLeafOnly(v: Value, cache: Cache, ignoreBuiltin: bool, std: set<string>, depth: Depth)
    requires v.MapV? || v.CollV? || v.Obj?
    requires CacheLeaf(cache, ignoreBuiltin, std)
    ensures var r := Contents(v, cache, ignoreBuiltin, std, depth);
      r.0 == ContentsLeaf(v, ignoreBuiltin, std, depth) && CacheLeaf(r.1, ignoreBuiltin, std)
    decreases v, 1, 0, 0
  {
    if v.Obj? || !FilterContainerDeep(v.ty, depth, std) {
    } else if v.MapV? {
      EntriesLeafOnly(v, 0, {}, cache, ignoreBuiltin, std);
    } else {
      ItemsLeafOnly(v, 0, {}, cache, ignoreBuiltin, std);
    }
  }

  lemma {:induction false} EntriesLeafOnly(v: Value, i: nat, acc: set<string>, cache: Cache,
                                           ignoreBuiltin: bool, std: set<string>)
    requires v.MapV? && i <= |v.entries| && CacheLeaf(cache, ignoreBuiltin, std)
    ensures var r := ResolveEntries(v, i, acc, cache, ignoreBuiltin, std);
      r.0 == acc + EntriesLeaf(v, i, ignoreBuiltin, std) && CacheLeaf(r.1, ignoreBuiltin, std)
    decreases v, 0, |v.entries| - i, 1
  {
    if i < |v.entries| {
      var key := ResolveValue(v.entries[i].0, cache, ignoreBuiltin, std, DeepBuiltin);
      var val := ResolveValue(v.entries[i].1, key.1, ignoreBuiltin, std, DeepBuiltin);
      var rest := ResolveEntries(v, i + 1, acc + key.0 + val.0, val.1, ignoreBuiltin, std);
      assert ResolveEntries(v, i, acc, cache, ignoreBuiltin, std) == rest by {
        EntriesStep(v, i, acc, cache, ignoreBuiltin, std);
      }
      assert key.0 + val.0 == EntryLeaf(v, i, ignoreBuiltin, std) by {
        PairLeafOnly(v, i, cache, ignoreBuiltin, std);
      }
      assert rest.0 == acc + key.0 + val.0 + EntriesLeaf(v, i + 1, ignoreBuiltin, std) && CacheLeaf(rest.1, ignoreBuiltin, std) by {
        PairLeafOnly(v, i, cache, ignoreBuiltin, std);
        EntriesLeafOnly(v, i + 1, acc + key.0 + val.0, val.1, ignoreBuiltin, std);
      }
      assert EntriesLeaf(v, i, ignoreBuiltin, std) == key.0 + val.0 + EntriesLeaf(v, i + 1, ignoreBuiltin, std) by {
        EntriesLeafStep(v, i, ignoreBuiltin, std);
      }
      UnionRegroup(acc, key.0, val.0, EntriesLeaf(v, i + 1, ignoreBuiltin, std));
    }
  }

  /** One item of a mapping, key then value, from a memo of leaves. */
  lemma {:induction false} PairLeafOnly(v: Value, i: nat, cache: Cache, ignoreBuiltin: bool, std: set<string>)
    requires v.MapV? && i < |v.entries| && CacheLeaf(cache, ignoreBuiltin, std)
    ensures var key := ResolveValue(v.entries[i].0, cache, ignoreBuiltin, std, DeepBuiltin);
      var val := ResolveValue(v.entries[i].1, key.1, ignoreBuiltin, std, DeepBuiltin);
      key.0 + val.0 == EntryLeaf(v, i, ignoreBuiltin, std) && CacheLeaf(val.1, ignoreBuiltin, std)
    decreases v, 0, |v.entries| - i, 0
  {
    var key := ResolveValue(v.entries[i].0, cache, ignoreBuiltin, std, DeepBuiltin);
    ValueLeafOnly(v.entries[i].0, cache, ignoreBuiltin, std, DeepBuiltin);
    ValueLeafOnly(v.entries[i].1, key.1, ignoreBuiltin, std, DeepBuiltin);
  }

  lemma {:induction false} ItemsLeafOnly(v: Value, i: nat, acc: set<string>, cache: Cache,
                                         ignoreBuiltin: bool, std: set<string>)
    requires v.CollV? && i <= |v.items| && CacheLeaf(cache, ignoreBuiltin, std)
    ensures var r := ResolveItems(v, i, acc, cache, ignoreBuiltin, std);
      r.0 == acc + ItemsLeaf(v, i, ignoreBuiltin, std) && CacheLeaf(r.1, ignoreBuiltin, std)
    decreases v, 0, |v.items| - i, 0
  {
    if i < |v.items| {
      var item := ResolveValue(v.items[i], cache, ignoreBuiltin, std, DeepBuiltin);
      var rest := ResolveItems(v, i + 1, acc + item.0, item.1, ignoreBuiltin, std);
      assert ResolveItems(v, i, acc, cache, ignoreBuiltin, std) == rest by {
        ItemsStep(v, i, acc, cache, ignoreBuiltin, std);
      }
      assert ItemsLeaf(v, i, ignoreBuiltin, std)
          == LeafRef(v.items[i], ignoreBuiltin, std, DeepBuiltin) + ItemsLeaf(v, i + 1, ignoreBuiltin, std) by {
        ItemsLeafStep(v, i, ignoreBuiltin, std);
      }
      assert item.0 == LeafRef(v.items[i], ignoreBuiltin, std, DeepBuiltin) && CacheLeaf(item.1, ignoreBuiltin, std) by {
        ValueLeafOnly(v.items[i], cache, ignoreBuiltin, std, DeepBuiltin);
      }
      assert rest.0 == acc + item.0 + ItemsLeaf(v, i + 1, ignoreBuiltin, std) && CacheLeaf(rest.1, ignoreBuiltin, std) by {
        ItemsLeafOnly(v, i + 1, acc + item.0, item.1, ignoreBuiltin, std);
      }
      UnionRegroup(acc, item.0, {}, ItemsLeaf(v, i + 1, ignoreBuiltin, std));
    }
  }

  lemma UnionRegroup(acc: set<string>, a: set<string>, b: set<string>, e: set<string>)
    ensures acc + a + b + e == acc + (a + b + e)
  {
  }

  /** The loop of `_resolve_parent_modules` from value `i` on, one memo
      table shared by all values, `"__main__"` dropped from each result. */
  function ParentModulesFrom(values: seq<Value>, i: nat, acc: set<string>, cache: Cache,
                             ignoreBuiltin: bool, std: set<string>, depth: Depth): (r: set<string>)
    requires i <= |values|
    ensures acc <= r
    ensures MainModule in r ==> MainModule in acc
    ensures CacheOk(cache, ignoreBuiltin, std) && Names(acc, ignoreBuiltin, std) ==> Names(r, ignoreBuiltin, std)
    ensures i < |values| ==> ResolveValue(values[i], cache, ignoreBuiltin, std, depth).0 - {MainModule} <= r
    decreases |values| - i
  {
    if i == |values| then acc
    else
      var (mods, cache') := ResolveValue(values[i], cache, ignoreBuiltin, std, depth);
      ParentModulesFrom(values, i + 1, acc + (mods - {MainModule}), cache', ignoreBuiltin, std, depth)
  }

  /** The set `_resolve_parent_modules` lists, with a fresh memo table. */
  function ParentModules(values: seq<Value>, ignoreBuiltin: bool, std: set<string>, depth: Depth): set<string>
  {
    ParentModulesFrom(values, 0, {}, map[], ignoreBuiltin, std, depth)
  }

  /** What every value's leaf reference contributes, `"__main__"` removed, in no order. */
  function LeafUnion(values: seq<Value>, ignoreBuiltin: bool, std: set<string>, depth: Depth): set<string>
  {
    set j, m | 0 <= j < |values| && m in LeafRef(values[j], ignoreBuiltin, std, depth) && m != MainModule :: m
  }

  lemma LeafUnionCons(values: seq<Value>, ignoreBuiltin: bool, std: set<string>, depth: Depth)
    requires |values| > 0
    ensures LeafUnion(values, ignoreBuiltin, std, depth)
         == (LeafRef(values[0], ignoreBuiltin, std, depth) - {MainModule}) + LeafUnion(values[1..], ignoreBuiltin, std, depth)
  {
    var lhs := LeafUnion(values, ignoreBuiltin, std, depth);
    var rhs := (LeafRef(values[0], ignoreBuiltin, std, depth) - {MainModule}) + LeafUnion(values[1..], ignoreBuiltin, std, depth);
    forall m | m in lhs ensures m in rhs {
      var j :| 0 <= j < |values| && m in LeafRef(values[j], ignoreBuiltin, std, depth) && m != MainModule;
      if j > 0 {
        assert values[1..][j - 1] == values[j];
      }
    }
    forall m | m in rhs ensures m in lhs {
      if m !in LeafRef(values[0], ignoreBuiltin, std, depth) {
        var j :| 0 <= j < |values[1..]| && m in LeafRef(values[1..][j], ignoreBuiltin, std, depth) && m != MainModule;
        assert values[j + 1] == values[1..][j];
      }
    }
  }

  /** From any well-formed memo on, each remaining value's leaf reference,
      `"__main__"` removed, ends up in the result. */
  lemma {:induction false} FromCollects(values: seq<Value>, i: nat, acc: set<string>, cache: Cache,
                                        ignoreBuiltin: bool, std: set<string>, depth: Depth, k: nat)
    requires i <= k < |values|
    requires CacheOk(cache, ignoreBuiltin, std)
    ensures LeafRef(values[k], ignoreBuiltin, std, depth) - {MainModule}
            <= ParentModulesFrom(values, i, acc, cache, ignoreBuiltin, std, depth)
    decreases |values| - i
  {
    var res := ResolveValue(values[i], cache, ignoreBuiltin, std, depth);
    var acc' := acc + (res.0 - {MainModule});
    FromStep(values, i, acc, cache, ignoreBuiltin, std, depth);
    if i < k {
      FromCollects(values, i + 1, acc', res.1, ignoreBuiltin, std, depth, k);
    } else {
      ValueCollected(values[k], cache, ignoreBuiltin, std, depth);
    }
  }

  /** From a memo of leaves, and with no class to resolve under `Deep`, the
      loop adds exactly the remaining values' leaf references. */
  lemma {:induction false} FromLeafOnly(values: seq<Value>, i: nat, acc: set<string>, cache: Cache,
                                        ignoreBuiltin: bool, std: set<string>, depth: Depth)
    requires i <= |values| && CacheLeaf(cache, ignoreBuiltin, std)
    requires depth != Deep || forall k :: i <= k < |values| ==> !values[k].TypeV?
    ensures ParentModulesFrom(values, i, acc, cache, ignoreBuiltin, std, depth)
         == acc + LeafUnion(values[i..], ignoreBuiltin, std, depth)
    decreases |values| - i
  {
    if i == |values| {
      assert LeafUnion(values[i..], ignoreBuiltin, std, depth) == {};
    } else {
      var res := ResolveValue(values[i], cache, ignoreBuiltin, std, depth);
      FromStep(values, i, acc, cache, ignoreBuiltin, std, depth);
      ValueLeafOnly(values[i], cache, ignoreBuiltin, std, depth);
      FromLeafOnly(values, i + 1, acc + (res.0 - {MainModule}), res.1, ignoreBuiltin, std, depth);
      LeafUnionCons(values[i..], ignoreBuiltin, std, depth);
      assert values[i..][1..] == values[i + 1..];
    }
  }

  /** Every value's leaf reference, `"__main__"` removed, is listed: the
      modules of the contents of every container entered, of the
      `__module__` attributes, and of the classes resolved. */
  lemma ParentModulesCollect(values: seq<Value>, ignoreBuiltin: bool, std: set<string>, depth: Depth, k: nat)
    requires k < |values|
    ensures LeafRef(values[k], ignoreBuiltin, std, depth) - {MainModule} <= ParentModules(values, ignoreBuiltin, std, depth)
  {
    FromCollects(values, 0, {}, map[], ignoreBuiltin, std, depth, k);
  }

  /** Unless a class is resolved under `Deep`, no bases are visited, the
      memo only ever holds leaves, and the result is exactly the union of
      the values' leaf references. */
  lemma ParentModulesLeafOnly(values: seq<Value>, ignoreBuiltin: bool, std: set<string>, depth: Depth)
    requires depth != Deep || forall k :: 0 <= k < |values| ==> !values[k].TypeV?
    ensures ParentModules(values, ignoreBuiltin, std, depth) == LeafUnion(values, ignoreBuiltin, std, depth)
  {
    FromLeafOnly(values, 0, {}, map[], ignoreBuiltin, std, depth);
    assert values[0..] == values;
  }

  /** As written, the order (and repetition) of the values matters only
      under `Deep`; below it the memo is harmless. */
  lemma AsWrittenOrderFreeBelowDeep(values: seq<Value>, values': seq<Value>,
                                    ignoreBuiltin: bool, std: set<string>, depth: Depth)
    requires Elems(values) == Elems(values') && depth != Deep
    ensures ParentModules(values, ignoreBuiltin, std, depth) == ParentModules(values', ignoreBuiltin, std, depth)
  {
    ParentModulesLeafOnly(values, ignoreBuiltin, std, depth);
    ParentModulesLeafOnly(values', ignoreBuiltin, std, depth);
    forall a: seq<Value>, b: seq<Value>, m | Elems(a) == Elems(b) && m in LeafUnion(a, ignoreBuiltin, std, depth)
      ensures m in LeafUnion(b, ignoreBuiltin, std, depth)
    {
      var j :| 0 <= j < |a| && m in LeafRef(a[j], ignoreBuiltin, std, depth) && m != MainModule;
      assert a[j] in Elems(b);
      var j' :| 0 <= j' < |b| && b[j'] == a[j];
    }
  }

  /** The two facts above, for every value at once. */
  lemma ParentModulesBounds(values: seq<Value>, ignoreBuiltin: bool, std: set<string>, depth: Depth)
    ensures forall k :: 0 <= k < |values| ==>
      LeafRef(values[k], ignoreBuiltin, std, depth) - {MainModule} <= ParentModules(values, ignoreBuiltin, std, depth)
    ensures depth != Deep ==> ParentModules(values, ignoreBuiltin, std, depth) == LeafUnion(values, ignoreBuiltin, std, depth)
  {
    forall k | 0 <= k < |values| {
      ParentModulesCollect(values, ignoreBuiltin, std, depth, k);
    }
    if depth != Deep {
      ParentModulesLeafOnly(values, ignoreBuiltin, std, depth);
    }
  }

  /** `_resolve_parent_modules`: lists that set once per name, in no
      particular order (Python's `list(set)`). */
  method ResolveParentModules(values: seq<Value>, ignoreBuiltin: bool, std: set<string>, depth: Depth)
    returns (r: seq<string>)
    ensures Elems(r) == ParentModules(values, ignoreBuiltin, std, depth)
    ensures forall i, j :: 0 <= i < j < |r| ==> r[i] != r[j]
    ensures MainModule !in r
    ensures forall x :: x in r ==> '.' !in x && (ignoreBuiltin ==> x !in std)
    ensures forall k :: 0 <= k < |values| ==> LeafRef(values[k], ignoreBuiltin, std, depth) - {MainModule} <= Elems(r)
    ensures depth != Deep ==> Elems(r) == LeafUnion(values, ignoreBuiltin, std, depth)
  {
    ParentModulesBounds(values, ignoreBuiltin, std, depth);
    var modules := ParentModules(values, ignoreBuiltin, std, depth);
    var rest := modules;
    r := [];
    while rest != {}
      invariant rest <= modules
      invariant Elems(r) + rest == modules
      invariant Elems(r) !! rest
      invariant forall i, j :: 0 <= i < j < |r| ==> r[i] != r[j]
      decreases rest
    {
      var x :| x in rest;
      r := r + [x];
      rest := rest - {x};
    }
  }

  /** The module a value is attributed to whatever its contents: its own
      for a class, the one of the class resolved last otherwise. */
  function OwnModule(v: Value, depth: Depth, std: set<string>): string
  {
    if v.TypeV? then v.t.definedIn else TypeAfter(v, depth, std).definedIn
  }

  /** Every value's own top-level module (for a class) or its class's
      top-level module (for anything else) is listed, unless it is ignored
      as builtin or is `"__main__"`. */
  lemma ParentModulesCoverOwnModules(values: seq<Value>, ignoreBuiltin: bool, std: set<string>, depth: Depth, k: nat)
    requires k < |values|
    ensures LeafSet(OwnModule(values[k], depth, std), ignoreBuiltin, std) - {MainModule}
            <= ParentModules(values, ignoreBuiltin, std, depth)
  {
    ParentModulesCollect(values, ignoreBuiltin, std, depth, k);
  }

  lemma OwnModuleResolved(v: Value, cache: Cache, ignoreBuiltin: bool, std: set<string>, depth: Depth)
    requires CacheOk(cache, ignoreBuiltin, std)
    ensures LeafSet(OwnModule(v, depth, std), ignoreBuiltin, std) <= ResolveValue(v, cache, ignoreBuiltin, std, depth).0
  {
    if v.TypeV? {
      assert ResolveValue(v, cache, ignoreBuiltin, std, depth) == ResolveType(v.t, cache, ignoreBuiltin, std, depth);
    }
  }

  /** Under `Shallow` a container's contents are never looked at. */
  lemma ShallowSkipsContents(ty: PyType, attr: Option<string>, items: seq<Value>, items': seq<Value>,
                             cache: Cache, ignoreBuiltin: bool, std: set<string>)
    ensures ResolveValue(CollV(ty, attr, items), cache, ignoreBuiltin, std, Shallow)
         == ResolveValue(CollV(ty, attr, items'), cache, ignoreBuiltin, std, Shallow)
  {
  }

  /** Below the top level the requested depth is forgotten: a builtin
      container resolves the same under `Deep` as under `DeepBuiltin`. */
  lemma NestedDepthIsDeepBuiltin(v: Value, cache: Cache, ignoreBuiltin: bool, std: set<string>)
    requires v.MapV? || v.CollV?
    requires UpTo(v.ty.definedIn, '.') in std
    ensures ResolveValue(v, cache, ignoreBuiltin, std, Deep) == ResolveValue(v, cache, ignoreBuiltin, std, DeepBuiltin)
  {
  }

  /** A name the resolver keeps as it is. */
  ghost predicate UserTop(name: string, std: set<string>)
  {
    '.' !in name && name !in std && name != MainModule
  }

  /** The leaf set of a dot-free name. */
  lemma LeafOfPlain(name: string, std: set<string>)
    requires '.' !in name
    ensures LeafSet(name, true, std) == if name in std then {} else {name}
  {
    UpToWhole(name, '.');
  }

  lemma FromStep(values: seq<Value>, i: nat, acc: set<string>, cache: Cache,
                 ignoreBuiltin: bool, std: set<string>, depth: Depth)
    requires i < |values|
    ensures var res := ResolveValue(values[i], cache, ignoreBuiltin, std, depth);
      ParentModulesFrom(values, i, acc, cache, ignoreBuiltin, std, depth)
      == ParentModulesFrom(values, i + 1, acc + (res.0 - {MainModule}), res.1, ignoreBuiltin, std, depth)
  {
  }

  /** One value on its own: its result with a fresh memo, `"__main__"` removed. */
  lemma ParentModulesOne(v: Value, ignoreBuiltin: bool, std: set<string>, depth: Depth)
    ensures ParentModules([v], ignoreBuiltin, std, depth)
         == ResolveValue(v, map[], ignoreBuiltin, std, depth).0 - {MainModule}
  {
    FromStep([v], 0, {}, map[], ignoreBuiltin, std, depth);
  }

  /** Two values: the second sees the memo the first left behind. */
  lemma ParentModulesTwo(v: Value, w: Value, ignoreBuiltin: bool, std: set<string>, depth: Depth)
    ensures var first := ResolveValue(v, map[], ignoreBuiltin, std, depth);
      ParentModules([v, w], ignoreBuiltin, std, depth)
      == (first.0 - {MainModule}) + (ResolveValue(w, first.1, ignoreBuiltin, std, depth).0 - {MainModule})
  {
    var first := ResolveValue(v, map[], ignoreBuiltin, std, depth);
    FromStep([v, w], 0, {}, map[], ignoreBuiltin, std, depth);
    FromStep([v, w], 1, {} + (first.0 - {MainModule}), first.1, ignoreBuiltin, std, depth);
  }

  /** The code keeps the top-level segment only: a class defined in
      `top.sub`, and an instance of it, both yield `top`, not `top.sub`. */
  lemma LeafOnlyExample(top: string, sub: string, builtin: string, std: set<string>)
    requires UserTop(top, std) && '.' !in builtin && builtin in std
    ensures var cls := PyType(top + "." + sub, [PyType(builtin, [])]);
      && ParentModules([TypeV(cls)], true, std, DeepBuiltin) == {top}
      && ParentModules([Obj(cls, Some(top + "." + sub))], true, std, DeepBuiltin) == {top}
  {
    var name := top + "." + sub;
    var cls := PyType(name, [PyType(builtin, [])]);
    UpToPrefix(top, "." + sub, '.');
    assert name == top + ("." + sub);
    assert LeafSet(name, true, std) == {top};
    ParentModulesOne(TypeV(cls), true, std, DeepBuiltin);
    var inst := Obj(cls, Some(name));
    assert Contents(inst, map[], true, std, DeepBuiltin) == ({top}, map[]);
    ParentModulesOne(inst, true, std, DeepBuiltin);
  }

  /** A primitive contributes only its own builtin class, so a string,
      even one spelling a class path, yields nothing. */
  lemma PrimitiveExample(builtin: string, std: set<string>, depth: Depth)
    requires '.' !in builtin && builtin in std
    ensures ParentModules([Prim(PyType(builtin, [PyType(builtin, [])]))], true, std, depth) == {}
  {
    LeafOfPlain(builtin, std);
    ParentModulesOne(Prim(PyType(builtin, [PyType(builtin, [])])), true, std, depth);
  }

  // ---------------------------------------------------------------------
  // The memo is keyed by the defining-module name alone, so a set computed
  // for one class is handed back for every other class of that module,
  // whatever depth it was computed at. Resolving an instance first stores
  // its class at `DeepBuiltin` (no bases); resolving the class itself
  // under `Deep` afterwards then misses the bases' modules.

  /** `class C(Base)` in module `pkg`, `class Base(object)` in module `lib`. */
  function PkgClass(pkg: string, lib: string, builtin: string): PyType
  {
    PyType(pkg, [PyType(lib, [PyType(builtin, [])])])
  }

  lemma BasesStep(t: PyType, i: nat, acc: set<string>, cache: Cache, ignoreBuiltin: bool, std: set<string>)
    requires i < |t.bases|
    ensures var b := ResolveType(t.bases[i], cache, ignoreBuiltin, std, Deep);
      ResolveBases(t, i, acc, cache, ignoreBuiltin, std) == ResolveBases(t, i + 1, acc + b.0, b.1, ignoreBuiltin, std)
  {
  }

  lemma TypeMissDeep(t: PyType, cache: Cache, ignoreBuiltin: bool, std: set<string>)
    requires t.definedIn !in cache
    ensures var b := ResolveBases(t, 0, LeafSet(t.definedIn, ignoreBuiltin, std), cache, ignoreBuiltin, std);
      ResolveType(t, cache, ignoreBuiltin, std, Deep) == (b.0, b.1[t.definedIn := b.0])
  {
  }

  lemma ValueStep(v: Value, cache: Cache, ignoreBuiltin: bool, std: set<string>, depth: Depth)
    requires v.Obj?
    ensures var inner := Contents(v, cache, ignoreBuiltin, std, depth);
      var own := ResolveType(v.ty, inner.1, ignoreBuiltin, std, DeepBuiltin);
      ResolveValue(v, cache, ignoreBuiltin, std, depth) == (inner.0 + own.0, own.1)
  {
  }

  lemma ObjectDeep(builtin: string, std: set<string>)
    requires '.' !in builtin && builtin in std
    ensures ResolveType(PyType(builtin, []), map[], true, std, Deep) == ({}, map[builtin := {}])
  {
    LeafOfPlain(builtin, std);
    TypeMissDeep(PyType(builtin, []), map[], true, std);
  }

  lemma BaseDeep(lib: string, builtin: string, std: set<string>)
    requires UserTop(lib, std) && '.' !in builtin && builtin in std
    ensures ResolveType(PyType(lib, [PyType(builtin, [])]), map[], true, std, Deep)
         == ({lib}, map[builtin := {}, lib := {lib}])
  {
    var libT := PyType(lib, [PyType(builtin, [])]);
    LeafOfPlain(lib, std);
    ObjectDeep(builtin, std);
    TypeMissDeep(libT, map[], true, std);
    BasesStep(libT, 0, {lib}, map[], true, std);
    assert {lib} + {} == {lib};
  }

  lemma PkgClassDeep(pkg: string, lib: string, builtin: string, std: set<string>)
    requires UserTop(pkg, std) && UserTop(lib, std) && pkg != lib && '.' !in builtin && builtin in std
    ensures ResolveType(PkgClass(pkg, lib, builtin), map[], true, std, Deep)
         == ({pkg, lib}, map[builtin := {}, lib := {lib}, pkg := {pkg, lib}])
  {
    var cls := PkgClass(pkg, lib, builtin);
    var c1 := map[builtin := {}, lib := {lib}];
    var own := LeafSet(pkg, true, std);
    LeafOfPlain(pkg, std);
    assert own == {pkg};
    BaseDeep(lib, builtin, std);
    assert cls.bases[0] == PyType(lib, [PyType(builtin, [])]);
    TypeMissDeep(cls, map[], true, std);
    BasesStep(cls, 0, own, map[], true, std);
    assert ResolveBases(cls, 1, {pkg, lib}, c1, true, std) == ({pkg, lib}, c1);
    assert own + {lib} == {pkg, lib};
  }

  lemma ClassThenInstance(pkg: string, lib: string, builtin: string, std: set<string>)
    requires UserTop(pkg, std) && UserTop(lib, std) && pkg != lib && '.' !in builtin && builtin in std
    ensures var inst := Obj(PkgClass(pkg, lib, builtin), Some(pkg));
      ParentModules([TypeV(PkgClass(pkg, lib, builtin)), inst], true, std, Deep) == {pkg, lib}
  {
    var cls := PkgClass(pkg, lib, builtin);
    var inst := Obj(cls, Some(pkg));
    var cache := map[builtin := {}, lib := {lib}, pkg := {pkg, lib}];
    LeafOfPlain(pkg, std);
    PkgClassDeep(pkg, lib, builtin, std);
    ValueStep(inst, cache, true, std, Deep);
    assert Contents(inst, cache, true, std, Deep) == ({pkg}, cache);
    assert ResolveType(cls, cache, true, std, DeepBuiltin) == ({pkg, lib}, cache);
    ParentModulesTwo(TypeV(cls), inst, true, std, Deep);
  }

  lemma InstanceThenClass(pkg: string, lib: string, builtin: string, std: set<string>)
    requires UserTop(pkg, std) && '.' !in builtin && builtin in std
    ensures var inst := Obj(PkgClass(pkg, lib, builtin), Some(pkg));
      ParentModules([inst, TypeV(PkgClass(pkg, lib, builtin))], true, std, Deep) == {pkg}
  {
    var cls := PkgClass(pkg, lib, builtin);
    var inst := Obj(cls, Some(pkg));
    LeafOfPlain(pkg, std);
    ValueStep(inst, map[], true, std, Deep);
    assert Contents(inst, map[], true, std, Deep) == ({pkg}, map[]);
    assert ResolveType(cls, map[], true, std, DeepBuiltin) == ({pkg}, map[pkg := {pkg}]);
    assert ResolveValue(TypeV(cls), map[pkg := {pkg}], true, std, Deep).0 == {pkg};
    ParentModulesTwo(inst, TypeV(cls), true, std, Deep);
  }

  /** As written, the listed modules depend on the order of the values:
      the class before its instance lists `lib`, the other way round does not. */
  lemma MemoMakesResultOrderDependent(pkg: string, lib: string, builtin: string, std: set<string>)
    requires UserTop(pkg, std) && UserTop(lib, std) && pkg != lib && '.' !in builtin && builtin in std
    ensures var inst := Obj(PkgClass(pkg, lib, builtin), Some(pkg));
      ParentModules([TypeV(PkgClass(pkg, lib, builtin)), inst], true, std, Deep)
      != ParentModules([inst, TypeV(PkgClass(pkg, lib, builtin))], true, std, Deep)
  {
    ClassThenInstance(pkg, lib, builtin, std);
    InstanceThenClass(pkg, lib, builtin, std);
    assert lib in {pkg, lib} && lib !in {pkg};
  }

  // ---- the uncached reference ----

  function TypeRef(t: PyType, ignoreBuiltin: bool, std: set<string>, deep: bool): set<string>
    decreases t, 1, 0
  {
    LeafSet(t.definedIn, ignoreBuiltin, std) + (if deep then BasesRef(t, 0, ignoreBuiltin, std) else {})
  }

  function BasesRef(t: PyType, i: nat, ignoreBuiltin: bool, std: set<string>): set<string>
    requires i <= |t.bases|
    decreases t, 0, |t.bases| - i
  {
    if i == |t.bases| then {}
    else TypeRef(t.bases[i], ignoreBuiltin, std, true) + BasesRef(t, i + 1, ignoreBuiltin, std)
  }

  function ValueRef(v: Value, ignoreBuiltin: bool, std: set<string>, depth: Depth): set<string>
    decreases v, 2, 0
  {
    if v.TypeV? then TypeRef(v.t, ignoreBuiltin, std, depth == Deep)
    else (if v.Prim? then {} else ContentsRef(v, ignoreBuiltin, std, depth)) + TypeRef(v.ty, ignoreBuiltin, std, false)
  }

  function ContentsRef(v: Value, ignoreBuiltin: bool, std: set<string>, depth: Depth): set<string>
    requires v.MapV? || v.CollV? || v.Obj?
    decreases v, 1, 0
  {
    if v.Obj? || !FilterContainerDeep(v.ty, depth, std) then AttrModules(v.attr, ignoreBuiltin, std)
    else if v.MapV? then EntriesRef(v, 0, ignoreBuiltin, std)
    else ItemsRef(v, 0, ignoreBuiltin, std)
  }

  function EntriesRef(v: Value, i: nat, ignoreBuiltin: bool, std: set<string>): set<string>
    requires v.MapV? && i <= |v.entries|
    decreases v, 0, |v.entries| - i
  {
    if i == |v.entries| then {}
    else
      ValueRef(v.entries[i].0, ignoreBuiltin, std, DeepBuiltin) + ValueRef(v.entries[i].1, ignoreBuiltin, std, DeepBuiltin)
      + EntriesRef(v, i + 1, ignoreBuiltin, std)
  }

  function ItemsRef(v: Value, i: nat, ignoreBuiltin: bool, std: set<string>): set<string>
    requires v.CollV? && i <= |v.items|
    decreases v, 0, |v.items| - i
  {
    if i == |v.items| then {}
    else ValueRef(v.items[i], ignoreBuiltin, std, DeepBuiltin) + ItemsRef(v, i + 1, ignoreBuiltin, std)
  }

  /** What every value contributes, `"__main__"` removed, in no order. */
  function RefUnion(values: seq<Value>, ignoreBuiltin: bool, std: set<string>, depth: Depth): set<string>
  {
    set j, m | 0 <= j < |values| && m in ValueRef(values[j], ignoreBuiltin, std, depth) && m != MainModule :: m
  }

  // ---- the corrected memo: keyed by the class and whether its bases are visited ----

  type TypeCache = map<(PyType, bool), set<string>>

  /** Every memo entry is what the uncached reference computes for its key. */
  ghost predicate CacheRight(cache: TypeCache, ignoreBuiltin: bool, std: set<string>)
  {
    forall k :: k in cache ==> cache[k] == TypeRef(k.0, ignoreBuiltin, std, k.1)
  }

  function TypeFixed(t: PyType, cache: TypeCache, ignoreBuiltin: bool, std: set<string>, deep: bool)
    : (r: (set<string>, TypeCache))
    ensures CacheRight(cache, ignoreBuiltin, std) ==>
      r.0 == TypeRef(t, ignoreBuiltin, std, deep) && CacheRight(r.1, ignoreBuiltin, std)
    decreases t, 1, 0
  {
    if (t, deep) in cache then (cache[(t, deep)], cache)
    else
      var own := LeafSet(t.definedIn, ignoreBuiltin, std);
      var (mods, cache') := if deep then BasesFixed(t, 0, own, cache, ignoreBuiltin, std) else (own, cache);
      (mods, cache'[(t, deep) := mods])
  }

  function BasesFixed(t: PyType, i: nat, acc: set<string>, cache: TypeCache, ignoreBuiltin: bool, std: set<string>)
    : (r: (set<string>, TypeCache))
    requires i <= |t.bases|
    ensures CacheRight(cache, ignoreBuiltin, std) ==>
      r.0 == acc + BasesRef(t, i, ignoreBuiltin, std) && CacheRight(r.1, ignoreBuiltin, std)
    decreases t, 0, |t.bases| - i
  {
    if i == |t.bases| then (acc, cache)
    else
      var base := TypeFixed(t.bases[i], cache, ignoreBuiltin, std, true);
      BasesFixed(t, i + 1, acc + base.0, base.1, ignoreBuiltin, std)
  }

  function ValueFixed(v: Value, cache: TypeCache, ignoreBuiltin: bool, std: set<string>, depth: Depth)
    : (r: (set<string>, TypeCache))
    ensures CacheRight(cache, ignoreBuiltin, std) ==>
      r.0 == ValueRef(v, ignoreBuiltin, std, depth) && CacheRight(r.1, ignoreBuiltin, std)
    decreases v, 2, 0
  {
    if v.TypeV? then TypeFixed(v.t, cache, ignoreBuiltin, std, depth == Deep)
    else
      var inner := if v.Prim? then ({}, cache) else ContentsFixed(v, cache, ignoreBuiltin, std, depth);
      assert CacheRight(cache, ignoreBuiltin, std) ==>
        (CacheRight(inner.1, ignoreBuiltin, std) && inner.0 == (if v.Prim? then {} else ContentsRef(v, ignoreBuiltin, std, depth)));
      var own := TypeFixed(v.ty, inner.1, ignoreBuiltin, std, false);
      (inner.0 + own.0, own.1)
  }

  function ContentsFixed(v: Value, cache: TypeCache, ignoreBuiltin: bool, std: set<string>, depth: Depth)
    : (r: (set<string>, TypeCache))
    requires v.MapV? || v.CollV? || v.Obj?
    ensures CacheRight(cache, ignoreBuiltin, std) ==>
      r.0 == ContentsRef(v, ignoreBuiltin, std, depth) && CacheRight(r.1, ignoreBuiltin, std)
    decreases v, 1, 0
  {
    if v.Obj? || !FilterContainerDeep(v.ty, depth, std) then (AttrModules(v.attr, ignoreBuiltin, std), cache)
    else if v.MapV? then EntriesFixed(v, 0, {}, cache, ignoreBuiltin, std)
    else ItemsFixed(v, 0, {}, cache, ignoreBuiltin, std)
  }

  function EntriesFixed(v: Value, i: nat, acc: set<string>, cache: TypeCache, ignoreBuiltin: bool, std: set<string>)
    : (r: (set<string>, TypeCache))
    requires v.MapV? && i <= |v.entries|
    ensures CacheRight(cache, ignoreBuiltin, std) ==>
      r.0 == acc + EntriesRef(v, i, ignoreBuiltin, std) && CacheRight(r.1, ignoreBuiltin, std)
    decreases v, 0, |v.entries| - i
  {
    if i == |v.entries| then (acc, cache)
    else
      var (keyMods, cache1) := ValueFixed(v.entries[i].0, cache, ignoreBuiltin, std, DeepBuiltin);
      var (valMods, cache2) := ValueFixed(v.entries[i].1, cache1, ignoreBuiltin, std, DeepBuiltin);
      EntriesFixed(v, i + 1, acc + keyMods + valMods, cache2, ignoreBuiltin, std)
  }

  function ItemsFixed(v: Value, i: nat, acc: set<string>, cache: TypeCache, ignoreBuiltin: bool, std: set<string>)
    : (r: (set<string>, TypeCache))
    requires v.CollV? && i <= |v.items|
    ensures CacheRight(cache, ignoreBuiltin, std) ==>
      r.0 == acc + ItemsRef(v, i, ignoreBuiltin, std) && CacheRight(r.1, ignoreBuiltin, std)
    decreases v, 0, |v.items| - i
  {
    if i == |v.items| then (acc, cache)
    else
      var (mods, cache') := ValueFixed(v.items[i], cache, ignoreBuiltin, std, DeepBuiltin);
      ItemsFixed(v, i + 1, acc + mods, cache', ignoreBuiltin, std)
  }

  function ParentModulesFixedFrom(values: seq<Value>, i: nat, acc: set<string>, cache: TypeCache,
                                  ignoreBuiltin: bool, std: set<string>, depth: Depth): (r: set<string>)
    requires i <= |values|
    ensures CacheRight(cache, ignoreBuiltin, std) ==>
      r == acc + RefUnion(values[i..], ignoreBuiltin, std, depth)
    decreases |values| - i
  {
    if i == |values| then acc
    else
      var (mods, cache') := ValueFixed(values[i], cache, ignoreBuiltin, std, depth);
      RefUnionCons(values[i..], ignoreBuiltin, std, depth);
      assert values[i..][1..] == values[i + 1..];
      ParentModulesFixedFrom(values, i + 1, acc + (mods - {MainModule}), cache', ignoreBuiltin, std, depth)
  }

  lemma RefUnionCons(values: seq<Value>, ignoreBuiltin: bool, std: set<string>, depth: Depth)
    requires |values| > 0
    ensures RefUnion(values, ignoreBuiltin, std, depth)
         == (ValueRef(values[0], ignoreBuiltin, std, depth) - {MainModule}) + RefUnion(values[1..], ignoreBuiltin, std, depth)
  {
    var lhs := RefUnion(values, ignoreBuiltin, std, depth);
    var rhs := (ValueRef(values[0], ignoreBuiltin, std, depth) - {MainModule}) + RefUnion(values[1..], ignoreBuiltin, std, depth);
    forall m | m in lhs ensures m in rhs {
      var j :| 0 <= j < |values| && m in ValueRef(values[j], ignoreBuiltin, std, depth) && m != MainModule;
      if j > 0 {
        assert values[1..][j - 1] == values[j];
      }
    }
    forall m | m in rhs ensures m in lhs {
      if m !in ValueRef(values[0], ignoreBuiltin, std, depth) {
        var j :| 0 <= j < |values[1..]| && m in ValueRef(values[1..][j], ignoreBuiltin, std, depth) && m != MainModule;
        assert values[j + 1] == values[1..][j];
      }
    }
  }

  /** `_resolve_parent_modules` with the corrected memo: each value
      contributes what the uncached reference computes for it. */
  function ParentModulesFixed(values: seq<Value>, ignoreBuiltin: bool, std: set<string>, depth: Depth): (r: set<string>)
    ensures r == RefUnion(values, ignoreBuiltin, std, depth)
    ensures MainModule !in r
  {
    assert values[0..] == values;
    ParentModulesFixedFrom(values, 0, {}, map[], ignoreBuiltin, std, depth)
  }

  /** With the corrected memo the order (and repetition) of the values no
      longer matters. */
  lemma {:induction false} FixedIsOrderFree(values: seq<Value>, values': seq<Value>,
                                            ignoreBuiltin: bool, std: set<string>, depth: Depth)
    requires Elems(values) == Elems(values')
    ensures ParentModulesFixed(values, ignoreBuiltin, std, depth) == ParentModulesFixed(values', ignoreBuiltin, std, depth)
  {
    forall a: seq<Value>, b: seq<Value>, m | Elems(a) == Elems(b) && m in RefUnion(a, ignoreBuiltin, std, depth)
      ensures m in RefUnion(b, ignoreBuiltin, std, depth)
    {
      var j :| 0 <= j < |a| && m in ValueRef(a[j], ignoreBuiltin, std, depth) && m != MainModule;
      assert a[j] in Elems(b);
      var j' :| 0 <= j' < |b| && b[j'] == a[j];
    }
  }

  lemma PkgRefs(pkg: string, lib: string, builtin: string, std: set<string>)
    requires UserTop(pkg, std) && UserTop(lib, std) && '.' !in builtin && builtin in std
    ensures ValueRef(TypeV(PkgClass(pkg, lib, builtin)), true, std, Deep) == {pkg, lib}
    ensures ValueRef(Obj(PkgClass(pkg, lib, builtin), Some(pkg)), true, std, Deep) == {pkg}
  {
    LeafOfPlain(builtin, std);
    LeafOfPlain(lib, std);
    LeafOfPlain(pkg, std);
    var objT := PyType(builtin, []);
    var libT := PyType(lib, [objT]);
    var cls := PkgClass(pkg, lib, builtin);
    assert TypeRef(objT, true, std, true) == {};
    assert BasesRef(libT, 0, true, std) == {};
    assert TypeRef(libT, true, std, true) == {lib};
    assert BasesRef(cls, 0, true, std) == {lib};
    assert TypeRef(cls, true, std, false) == {pkg};
  }

  /** The order-dependent example, corrected: both orders list `lib`. */
  lemma FixedExample(pkg: string, lib: string, builtin: string, std: set<string>)
    requires UserTop(pkg, std) && UserTop(lib, std) && pkg != lib && '.' !in builtin && builtin in std
    ensures var inst := Obj(PkgClass(pkg, lib, builtin), Some(pkg));
      && ParentModulesFixed([inst, TypeV(PkgClass(pkg, lib, builtin))], true, std, Deep) == {pkg, lib}
      && ParentModulesFixed([TypeV(PkgClass(pkg, lib, builtin)), inst], true, std, Deep) == {pkg, lib}
  {
    PkgRefs(pkg, lib, builtin, std);
    var inst := Obj(PkgClass(pkg, lib, builtin), Some(pkg));
    var vs := [inst, TypeV(PkgClass(pkg, lib, builtin))];
    RefUnionCons(vs, true, std, Deep);
    RefUnionCons(vs[1..], true, std, Deep);
    assert vs[1..][1..] == [];
    FixedIsOrderFree(vs, [TypeV(PkgClass(pkg, lib, builtin)), inst], true, std, Deep);
  }

  // ---- the rebound name in the mapping branch ----

  /** A user-defined mapping class `pkg` holding one builtin key and value. */
  function PkgMapping(pkg: string, builtin: string): Value
  {
    MapV(PyType(pkg, []), None, [(Prim(PyType(builtin, [])), Prim(PyType(builtin, [])))])
  }

  /** As written, a mapping whose items are visited is attributed to the
      class of its last value: under `Deep` the user mapping class `pkg`
      is lost, where the uncached reference lists it. */
  lemma MappingLosesOwnClass(pkg: string, builtin: string, std: set<string>)
    requires UserTop(pkg, std) && '.' !in builtin && builtin in std
    ensures ParentModules([PkgMapping(pkg, builtin)], true, std, Deep) == {}
    ensures ParentModulesFixed([PkgMapping(pkg, builtin)], true, std, Deep) == {pkg}
  {
    MappingAsWritten(pkg, builtin, std);
    MappingCorrected(pkg, builtin, std);
  }

  lemma MappingAsWritten(pkg: string, builtin: string, std: set<string>)
    requires '.' !in builtin && builtin in std
    ensures ParentModules([PkgMapping(pkg, builtin)], true, std, Deep) == {}
  {
    var b := PyType(builtin, []);
    var m := PkgMapping(pkg, builtin);
    var c := map[builtin := {}];
    LeafOfPlain(builtin, std);
    assert ResolveType(b, map[], true, std, DeepBuiltin) == ({}, c);
    PrimValue(b, map[], true, std, DeepBuiltin);
    PrimValue(b, c, true, std, DeepBuiltin);
    assert ResolveEntries(m, 1, {}, c, true, std) == ({}, c);
    assert Contents(m, map[], true, std, Deep) == ({}, c);
    assert TypeAfter(m, Deep, std) == b;
    assert ResolveValue(m, map[], true, std, Deep).0 == {};
    ParentModulesOne(m, true, std, Deep);
  }

  lemma MappingCorrected(pkg: string, builtin: string, std: set<string>)
    requires UserTop(pkg, std) && '.' !in builtin && builtin in std
    ensures ParentModulesFixed([PkgMapping(pkg, builtin)], true, std, Deep) == {pkg}
  {
    var b := PyType(builtin, []);
    var m := PkgMapping(pkg, builtin);
    LeafOfPlain(builtin, std);
    LeafOfPlain(pkg, std);
    assert ValueRef(Prim(b), true, std, DeepBuiltin) == {};
    assert EntriesRef(m, 0, true, std) == {};
    assert ValueRef(m, true, std, Deep) == {pkg};
    RefUnionCons([m], true, std, Deep);
    assert RefUnion([m][1..], true, std, Deep) == {};
  }

  /** A primitive contributes its class alone, looked up at the default depth. */
  lemma PrimValue(t: PyType, cache: Cache, ignoreBuiltin: bool, std: set<string>, depth: Depth)
    ensures ResolveValue(Prim(t), cache, ignoreBuiltin, std, depth) == ResolveType(t, cache, ignoreBuiltin, std, DeepBuiltin)
  {
    var r := ResolveType(t, cache, ignoreBuiltin, std, DeepBuiltin);
    assert {} + r.0 == r.0;
  }

  /** With the corrected resolver every value that is not a class is
      attributed to its own class, whatever it holds. */
  lemma FixedCoversOwnClass(values: seq<Value>, ignoreBuiltin: bool, std: set<string>, depth: Depth, k: nat)
    requires k < |values| && !values[k].TypeV?
    ensures LeafSet(values[k].ty.definedIn, ignoreBuiltin, std) - {MainModule}
            <= ParentModulesFixed(values, ignoreBuiltin, std, depth)
  {
    assert LeafSet(values[k].ty.definedIn, ignoreBuiltin, std) <= ValueRef(values[k], ignoreBuiltin, std, depth);
  }
}
