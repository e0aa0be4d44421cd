/** What the core asks the running interpreter through `importlib`: both
    answers come from outside the model and are taken as parameters. */
module Importlib {
  import opened Wrappers
  import opened Paths

  /** `importlib.util.find_spec(name)`: a spec with its
      `submodule_search_locations` (empty for a plain module), no spec, or
      an exception (for instance when a parent package is missing). */
  datatype SpecLookup = Found(locations: seq<Path>) | NotFound | Raised

  /** `importlib.metadata.distribution(name)`, and what its
      `read_text("top_level.txt")` returns when it is installed. */
  datatype DistLookup = NotInstalled | Installed(topLevel: Option<string>)
}
