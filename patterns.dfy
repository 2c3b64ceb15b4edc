/**
 * Operator-supplied regular expressions (a repository's `path_regex`, the
 * `path` option of a repository section) are handed to Python's `re`
 * module. The engine is left abstract: whether a pattern compiles, and
 * whether a compiled pattern matches at the start of a string.
 */
module Patterns {

  datatype Engine = Engine(compiles: string -> bool, matchesAtStart: (string, string) -> bool)

  /** The position of the first of `patterns` that matches at the start of
      `s`, if any: the loops that return on the first match. */
  function FirstMatch(engine: Engine, patterns: seq<string>, s: string): (r: nat)
    ensures r <= |patterns|
    ensures r < |patterns| ==> engine.matchesAtStart(patterns[r], s)
    ensures forall i :: 0 <= i < r ==> !engine.matchesAtStart(patterns[i], s)
  {
    if patterns == [] then 0
    else if engine.matchesAtStart(patterns[0], s) then 0
    else 1 + FirstMatch(engine, patterns[1..], s)
  }

  /** A search that stops at `i`, having passed over only non-matching
      patterns, stops where `FirstMatch` does. */
  lemma FirstMatchAt(engine: Engine, patterns: seq<string>, s: string, i: nat)
    requires i <= |patterns|
    requires forall j :: 0 <= j < i ==> !engine.matchesAtStart(patterns[j], s)
    requires i < |patterns| ==> engine.matchesAtStart(patterns[i], s)
    ensures FirstMatch(engine, patterns, s) == i
  {
  }
}
