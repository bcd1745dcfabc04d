/** What the program reads back from a parsed command line (`getopts::Matches`):
    the occurrences of each option with the value each one carried, and the
    free arguments in order. */
module Getopts {
  import opened Wrappers

  datatype Matches = Matches(occurrences: map<string, seq<Option<string>>>, free: seq<string>) {

    /** `opt_present`: the option occurred at least once. */
    predicate OptPresent(name: string) {
      name in occurrences && |occurrences[name]| > 0
    }

    /** `opt_str`: the value of the first occurrence, if it carried one. */
    function OptStr(name: string): (r: Option<string>)
      ensures r.Some? ==> OptPresent(name)
    {
      if OptPresent(name) then occurrences[name][0] else None
    }

    /** `opt_strs`: the values of all occurrences that carried one, in order. */
    function OptStrs(name: string): seq<string> {
      if name in occurrences then Values(occurrences[name]) else []
    }
  }

  function Values(vals: seq<Option<string>>): (r: seq<string>)
    ensures |r| <= |vals|
  {
    if vals == [] then []
    else (match vals[0] case Some(v) => [v] case None => []) + Values(vals[1..])
  }
}
