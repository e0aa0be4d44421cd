/** `pathlib` paths as a flag for a leading `/` and the list of their parts. */
module Paths {

  datatype Path = Path(isAbs: bool, parts: seq<string>)

  /** `p / name` for a single path component; an empty name leaves the
      path as it is, as `pathlib` does. */
  function Child(p: Path, name: string): (r: Path)
    ensures r.isAbs == p.isAbs
    ensures name == "" ==> r == p
    ensures name != "" ==> r.parts == p.parts + [name]
  {
    if name == "" then p else Path(p.isAbs, p.parts + [name])
  }

  /** `p / a / b / ...`, one component at a time. */
  function ChildAll(p: Path, names: seq<string>): (r: Path)
    decreases names
  {
    if |names| == 0 then p else ChildAll(Child(p, names[0]), names[1..])
  }

  /** The parts a sequence of names adds: the non-empty ones. */
  function NonEmpty(names: seq<string>): (r: seq<string>)
    ensures forall x :: x in r ==> x != "" && x in names
    ensures (forall i :: 0 <= i < |names| ==> names[i] != "") ==> r == names
  {
    if |names| == 0 then []
    else
      assert names == [names[0]] + names[1..];
      (if names[0] == "" then [] else [names[0]]) + NonEmpty(names[1..])
  }

  lemma {:induction false} ChildAllParts(p: Path, names: seq<string>)
    ensures ChildAll(p, names) == Path(p.isAbs, p.parts + NonEmpty(names))
    decreases names
  {
    if |names| > 0 {
      var c := Child(p, names[0]);
      var rest := NonEmpty(names[1..]);
      ChildAllParts(c, names[1..]);
      assert ChildAll(p, names) == ChildAll(c, names[1..]);
      if names[0] == "" {
        assert NonEmpty(names) == rest;
      } else {
        assert NonEmpty(names) == [names[0]] + rest;
        assert (p.parts + [names[0]]) + rest == p.parts + ([names[0]] + rest);
      }
    }
  }

  /** `p.absolute()` with `cwd` the process's (absolute) working directory. */
  function Absolute(cwd: seq<string>, p: Path): (r: Path)
    ensures r.isAbs
    ensures p.isAbs ==> r == p
    ensures !p.isAbs ==> r.parts == cwd + p.parts
  {
    if p.isAbs then p else Path(true, cwd + p.parts)
  }

  /** `p.name`: the last part, or `""` for a path with no parts. */
  function Name(p: Path): string
  {
    if |p.parts| == 0 then "" else p.parts[|p.parts| - 1]
  }
}
