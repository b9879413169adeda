/** The rename dispatcher ApplyAction: the new display name of a block for one request. */
module Rename {
  import opened Wrappers
  import opened Strings
  import opened Thrusters

  /** `Regex.Replace(input, pattern, replacement)`, supplied by the host library; None when
      it throws (an invalid pattern), which the dispatcher catches. */
  type RegexReplace = (string, string, string) -> Option<string>

  /** The action tags the dispatcher knows. */
  const ACTIONS: set<string> := {"REPLACE", "PREFIX", "SUFFIX", "RESET", "NUMPREFIX", "NUM", "THRUST", "REGEX"}

  /** The separator between pattern and replacement in a REGEX request value. */
  const REGEX_SEPARATOR: char := '#'

  /** ApplyAction: the block's new CustomName, given its current name, its definition
      display name, its thrust direction (None: not a thruster), the request and the
      regex engine. A tag outside ACTIONS changes nothing, as the switch has no default. */
  function Renamed(name: string, displayName: string, thrust: Option<Direction>,
                   action: string, value: string, regex: RegexReplace): (r: string)
    ensures action !in ACTIONS ==> r == name
    ensures action == "REPLACE" ==> r == value
    ensures action == "PREFIX" || action == "NUMPREFIX" ==> r == value + name
    ensures action == "SUFFIX" || action == "NUM" ==> r == name + value
    ensures action == "RESET" ==> r == displayName
    ensures action == "THRUST" ==> r == ThrusterRename(name, thrust, value)
    ensures action == "REGEX" && |Split(value, REGEX_SEPARATOR)| != 2 ==> r == name
    ensures action == "REGEX" && |Split(value, REGEX_SEPARATOR)| == 2 ==>
      r == regex(name, Split(value, REGEX_SEPARATOR)[0], Split(value, REGEX_SEPARATOR)[1]).GetOr(name)
  {
    if action == "REPLACE" then value
    else if action == "PREFIX" then value + name
    else if action == "SUFFIX" then name + value
    else if action == "RESET" then displayName
    else if action == "NUMPREFIX" then value + name
    else if action == "NUM" then name + value
    else if action == "THRUST" then ThrusterRename(name, thrust, value)
    else if action == "REGEX" then
      var parts := Split(value, REGEX_SEPARATOR);
      if |parts| == 2 then regex(name, parts[0], parts[1]).GetOr(name) else name
    else name
  }

  /** The value the regex Replace button sends: `find#replacement`. */
  function RegexRequestValue(find: string, replacement: string): string
  {
    find + [REGEX_SEPARATOR] + replacement
  }

  /** A REGEX request built from a pattern and a replacement reaches the regex engine with
      exactly those two strings when neither contains '#', and changes nothing otherwise. */
  lemma {:induction false} RegexRequestGuard(name: string, displayName: string, thrust: Option<Direction>,
                                             find: string, replacement: string, regex: RegexReplace)
    ensures Renamed(name, displayName, thrust, "REGEX", RegexRequestValue(find, replacement), regex)
         == if REGEX_SEPARATOR in find || REGEX_SEPARATOR in replacement then name
            else regex(name, find, replacement).GetOr(name)
  {
    var value := RegexRequestValue(find, replacement);
    CountConcat(find, [REGEX_SEPARATOR] + replacement, REGEX_SEPARATOR);
    CountConcat([REGEX_SEPARATOR], replacement, REGEX_SEPARATOR);
    assert value == find + ([REGEX_SEPARATOR] + replacement);
    if REGEX_SEPARATOR !in find && REGEX_SEPARATOR !in replacement {
      SplitAfterPiece(find, replacement, REGEX_SEPARATOR);
      assert Split(value, REGEX_SEPARATOR) == [find, replacement];
    } else {
      assert Count(value, REGEX_SEPARATOR) >= 2;
    }
  }
}
