/**
 * The library's configuration record and the choice of the culture used
 * for formatting.
 */
module Options {
  import opened Wrappers

  /** A culture, known only by its name; the invariant culture has the empty name. */
  datatype Culture = Culture(name: string)

  const InvariantCulture: Culture := Culture("")

  /** The options record: an optional default culture and the inherit flag. */
  datatype SmartStringsOptions = SmartStringsOptions(defaultCulture: Option<Culture>, inheritThreadCulture: bool)

  /** A freshly constructed options record. */
  const DefaultOptions: SmartStringsOptions := SmartStringsOptions(None, true)

  /** The first candidate that is present, or `otherwise` when none is. */
  function FirstPresent(candidates: seq<Option<Culture>>, otherwise: Culture): (r: Culture)
    ensures r == otherwise || exists i :: 0 <= i < |candidates| && candidates[i] == Some(r)
    decreases |candidates|
  {
    if candidates == [] then otherwise
    else if candidates[0].Some? then candidates[0].value
    else FirstPresent(candidates[1..], otherwise)
  }

  /**
   * The culture used for formatting: the explicit one; else the configured
   * default; else the thread's current culture when the options inherit it;
   * else the invariant culture.
   */
  function ResolveCulture(explicit: Option<Culture>, options: SmartStringsOptions, current: Culture): Culture {
    if explicit.Some? then explicit.value
    else if options.defaultCulture.Some? then options.defaultCulture.value
    else if options.inheritThreadCulture then current
    else InvariantCulture
  }

  /** The candidates in priority order: explicit, configured, current (when inherited). */
  function Candidates(explicit: Option<Culture>, options: SmartStringsOptions, current: Culture): seq<Option<Culture>> {
    [explicit, options.defaultCulture, if options.inheritThreadCulture then Some(current) else None]
  }

  /** The resolved culture is the first present candidate, the invariant culture when none is. */
  lemma ResolveCultureIsFirstPresent(explicit: Option<Culture>, options: SmartStringsOptions, current: Culture)
    ensures ResolveCulture(explicit, options, current)
      == FirstPresent(Candidates(explicit, options, current), InvariantCulture)
  {
    var cs := Candidates(explicit, options, current);
    var third := if options.inheritThreadCulture then Some(current) else None;
    assert cs[1..] == [options.defaultCulture, third];
    assert cs[1..][1..] == [third];
    assert cs[1..][1..][1..] == [];
    assert FirstPresent(cs[1..][1..], InvariantCulture) == if third.Some? then current else InvariantCulture;
  }

  /** A fresh record sets no default culture and inherits the thread's culture. */
  lemma FreshOptionsUseCurrentCulture(current: Culture)
    ensures DefaultOptions.defaultCulture.None? && DefaultOptions.inheritThreadCulture
    ensures ResolveCulture(None, DefaultOptions, current) == current
  {
  }

  /** A configured default culture wins over the inherit flag, whatever its value. */
  lemma ConfiguredCultureWins(options: SmartStringsOptions, current: Culture)
    requires options.defaultCulture.Some?
    ensures ResolveCulture(None, options, current) == options.defaultCulture.value
  {
  }

  /** Without a default culture and without inheriting, the invariant culture is used. */
  lemma NoInheritUsesInvariant(options: SmartStringsOptions, current: Culture)
    requires options.defaultCulture.None? && !options.inheritThreadCulture
    ensures ResolveCulture(None, options, current) == InvariantCulture
  {
  }

  /** An explicit culture overrides every configured setting. */
  lemma ExplicitCultureWins(c: Culture, options: SmartStringsOptions, current: Culture)
    ensures ResolveCulture(Some(c), options, current) == c
  {
  }
}
