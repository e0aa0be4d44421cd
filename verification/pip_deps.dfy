/** Installed-package records (`src/nshsnap/_pip_deps.py`): the two record
    kinds, the tag that tells them apart, validation of a `pip list` entry,
    and the guess of an editable package's importable module name. */
module PipDeps {
  import opened Wrappers
  import opened Text
  import opened Exceptions
  import opened Importlib

  datatype Dependency =
    | Regular(name: string, version: Option<string>)
    | Editable(name: string, version: Option<string>, location: string)
  {
    /** The fixed `type` field of each record kind. */
    function Tag(): string
    {
      if Regular? then RegularTag else EditableTag
    }
  }

  const RegularTag: string := "regular"
  const EditableTag: string := "editable"

  const NameKey: string := "name"
  const VersionKey: string := "version"
  const TypeKey: string := "type"
  const LocationKey: string := "editable_project_location"

  /** A JSON field value: a string or `null`. */
  datatype Json = JStr(s: string) | JNull

  /** What the discriminator may be handed: a mapping (its keys and values)
      or an object (the names of its attributes). */
  datatype Raw = RawMap(fields: map<string, Json>) | RawObj(attrs: set<string>)

  /** `_discriminator`: a record is editable iff it carries a project location. */
  function Discriminator(v: Raw): (tag: string)
    ensures tag == EditableTag || tag == RegularTag
    ensures v.RawMap? ==> (tag == EditableTag <==> LocationKey in v.fields)
    ensures v.RawObj? ==> (tag == EditableTag <==> LocationKey in v.attrs)
  {
    match v
    case RawMap(fields) => if LocationKey in fields then EditableTag else RegularTag
    case RawObj(attrs) => if LocationKey in attrs then EditableTag else RegularTag
  }

  /** The attributes a record object has. */
  function Attributes(d: Dependency): set<string>
  {
    if d.Editable? then {NameKey, VersionKey, TypeKey, LocationKey} else {NameKey, VersionKey, TypeKey}
  }

  /** The record written out as a mapping, `null` for a missing version. */
  function Dump(d: Dependency): map<string, Json>
  {
    var base := map[NameKey := JStr(d.name),
                     VersionKey := (if d.version.Some? then JStr(d.version.value) else JNull),
                     TypeKey := JStr(d.Tag())];
    if d.Editable? then base[LocationKey := JStr(d.location)] else base
  }

  /** `version` is optional, `null` or absent meaning `None`. */
  function VersionField(fields: map<string, Json>): Option<string>
  {
    if VersionKey in fields && fields[VersionKey].JStr? then Some(fields[VersionKey].s) else None
  }

  /** Validation of one mapping against the record kind its tag selects:
      `name` (and, for an editable record, the location) must be strings;
      a `type` that is given must be that kind's tag. */
  function Validate(fields: map<string, Json>): (r: Result<Dependency, Exc>)
    ensures r.Success? ==> r.value.Tag() == Discriminator(RawMap(fields))
    ensures r.Success? <==>
      && NameKey in fields && fields[NameKey].JStr?
      && (TypeKey in fields ==> fields[TypeKey] == JStr(Discriminator(RawMap(fields))))
      && (LocationKey in fields ==> fields[LocationKey].JStr?)
    ensures r.Success? ==> r.value.name == fields[NameKey].s && r.value.version == VersionField(fields)
  {
    var tag := Discriminator(RawMap(fields));
    if NameKey !in fields || !fields[NameKey].JStr? then Failure(ValueError(NameKey))
    else if TypeKey in fields && fields[TypeKey] != JStr(tag) then Failure(ValueError(TypeKey))
    else if tag == RegularTag then Success(Regular(fields[NameKey].s, VersionField(fields)))
    else if !fields[LocationKey].JStr? then Failure(ValueError(LocationKey))
    else Success(Editable(fields[NameKey].s, VersionField(fields), fields[LocationKey].s))
  }

  /** A dumped record validates back to itself, as the same kind. */
  lemma ValidateDump(d: Dependency)
    ensures Discriminator(RawMap(Dump(d))) == d.Tag()
    ensures Discriminator(RawObj(Attributes(d))) == d.Tag()
    ensures Validate(Dump(d)) == Success(d)
  {
    var fields := Dump(d);
    assert NameKey in fields && TypeKey in fields && VersionKey in fields;
    assert d.Editable? <==> LocationKey in fields;
  }

  /** The defaults: a bare name is a regular record without a version; a
      name and a location make an editable one. */
  lemma ValidateDefaults(name: string, location: string)
    ensures Validate(map[NameKey := JStr(name)]) == Success(Regular(name, None))
    ensures Validate(map[NameKey := JStr(name), LocationKey := JStr(location)]) == Success(Editable(name, None, location))
  {
    assert VersionField(map[NameKey := JStr(name)]) == None;
    assert VersionField(map[NameKey := JStr(name), LocationKey := JStr(location)]) == None;
  }

  /** `current_pip_dependencies` on the entries `pip list --format=json`
      printed: every entry validated, the first bad one failing the lot. */
  function ParseDependencies(entries: seq<map<string, Json>>): (r: Result<seq<Dependency>, Exc>)
    ensures r.Success? <==> forall i :: 0 <= i < |entries| ==> Validate(entries[i]).Success?
    ensures r.Success? ==> |r.value| == |entries|
    ensures r.Success? ==> forall i :: 0 <= i < |entries| ==> r.value[i] == Validate(entries[i]).value
  {
    if |entries| == 0 then Success([])
    else
      var d :- Validate(entries[0]);
      var rest :- ParseDependencies(entries[1..]);
      assert forall i :: 1 <= i < |entries| ==> entries[i] == entries[1..][i - 1];
      Success([d] + rest)
  }

  /** `current_pip_dependencies`: runs `pip list --format=json` (`None`
      when it fails) and validates what it printed. */
  function CurrentPipDependencies(pipList: Option<seq<map<string, Json>>>): (r: Result<seq<Dependency>, Exc>)
    ensures pipList.None? ==> r == Failure(CalledProcessError("pip list"))
    ensures r.Success? <==> pipList.Some? && forall i :: 0 <= i < |pipList.value| ==> Validate(pipList.value[i]).Success?
    ensures r.Success? ==> |r.value| == |pipList.value|
    ensures r.Success? ==> forall i :: 0 <= i < |r.value| ==> r.value[i] == Validate(pipList.value[i]).value
    ensures pipList.Some? && r.Failure? ==> r == ParseDependencies(pipList.value)
  {
    if pipList.None? then Failure(CalledProcessError("pip list")) else ParseDependencies(pipList.value)
  }

  /** The usable `top_level.txt` text: present and not empty. */
  function TopLevelText(d: DistLookup): (r: Option<string>)
    ensures r.Some? ==> d == Installed(r) && r.value != ""
    ensures r.None? <==> d.NotInstalled? || d.topLevel.None? || d.topLevel.value == ""
  {
    if d.Installed? && d.topLevel.Some? && d.topLevel.value != "" then d.topLevel else None
  }

  /** `text.strip().split("\\n")[0]`. */
  function FirstLine(text: string): (r: string)
    ensures '\n' !in r
    ensures |r| <= |Strip(text)| && r == Strip(text)[..|r|]
    ensures |r| < |Strip(text)| ==> Strip(text)[|r|] == '\n'
  {
    UpTo(Strip(text), '\n')
  }

  /** The names tried when there is no usable top-level text, in order. */
  function Candidates(name: string): (r: seq<string>)
    ensures |r| == 4 && r[0] == name
    ensures '-' !in r[1] && '-' !in r[3]
    ensures forall i :: 0 <= i < 4 ==> |r[i]| == |name|
    ensures r[1] == Replace(name, '-', '_') && r[2] == Lower(name) && r[3] == Replace(Lower(name), '-', '_')
  {
    [name, Replace(name, '-', '_'), Lower(name), Replace(Lower(name), '-', '_')]
  }

  /** Index of the first name `find_spec` does not answer "no spec" for. */
  function FirstHit(names: seq<string>, findSpec: string -> SpecLookup): (k: nat)
    ensures k <= |names|
    ensures forall j :: 0 <= j < k ==> findSpec(names[j]).NotFound?
    ensures k < |names| ==> !findSpec(names[k]).NotFound?
  {
    if |names| == 0 || !findSpec(names[0]).NotFound? then 0 else 1 + FirstHit(names[1..], findSpec)
  }

  /** The candidate loop: the first name with a spec, `None` when there is
      none; an exception from `find_spec` ends the loop and propagates. */
  function FirstFound(names: seq<string>, findSpec: string -> SpecLookup): (r: Result<Option<string>, Exc>)
    ensures r == Success(None) <==> forall j :: 0 <= j < |names| ==> findSpec(names[j]).NotFound?
    ensures r.Success? && r.value.Some? ==>
      r.value.value == names[FirstHit(names, findSpec)] && findSpec(r.value.value).Found?
    ensures r.Failure? ==> findSpec(names[FirstHit(names, findSpec)]).Raised?
  {
    var k := FirstHit(names, findSpec);
    if k == |names| then Success(None)
    else if findSpec(names[k]).Raised? then Failure(LookupRaised(names[k]))
    else Success(Some(names[k]))
  }

  /** `EditablePackageDependency.importable_module_name`. */
  function ImportableModuleName(name: string, dist: string -> DistLookup, findSpec: string -> SpecLookup)
    : (r: Result<Option<string>, Exc>)
    ensures TopLevelText(dist(name)).Some? ==> r == Success(Some(FirstLine(TopLevelText(dist(name)).value)))
    ensures TopLevelText(dist(name)).None? ==> r == FirstFound(Candidates(name), findSpec)
    ensures r == Success(None) <==>
      TopLevelText(dist(name)).None? && forall j :: 0 <= j < 4 ==> findSpec(Candidates(name)[j]).NotFound?
  {
    match TopLevelText(dist(name))
    case Some(text) => Success(Some(FirstLine(text)))
    case None => FirstFound(Candidates(name), findSpec)
  }

  /** Whitespace-only top-level text gives the empty name, not `None`. */
  lemma BlankTopLevelGivesEmptyName(name: string, dist: string -> DistLookup, findSpec: string -> SpecLookup)
    requires dist(name).Installed? && dist(name).topLevel.Some?
    requires dist(name).topLevel.value != ""
    requires forall k :: 0 <= k < |dist(name).topLevel.value| ==> IsSpace(dist(name).topLevel.value[k])
    ensures ImportableModuleName(name, dist, findSpec) == Success(Some(""))
  {
  }

  /** A listing whose first line is a clean name yields that name. */
  lemma FirstLineOfListing(top: string, rest: string)
    requires top != "" && '\n' !in top
    requires !IsSpace(top[0]) && !IsSpace(top[|top| - 1])
    ensures FirstLine(top + "\n" + rest) == top
  {
    var s := top + "\n" + rest;
    var r := Strip(s);
    assert LeadingSpaces(s) == 0 by {
      assert s[0] == top[0];
    }
    assert s[|top| - 1] == top[|top| - 1];
    assert !IsSpace(s[|top| - 1]);
    assert |r| >= |top|;
    assert r[..|top|] == top;
    if |r| > |top| {
      assert r[|top|] == '\n';
      UpToPrefix(top, r[|top|..], '\n');
      assert r == top + r[|top|..];
    } else {
      UpToWhole(top, '\n');
    }
  }
}
