/**
 * The severity setting of the test suite: the `SEVERITY` environment variable
 * selects a level (unset or empty: 0, `COVERAGE`: 10, `FULL`: 20, in any letter
 * case), and a test marked with a level above the current one is skipped.
 */
module Severity {
  import opened Wrappers

  const SeverityCoverage: int := 10
  const SeverityFull: int := 20

  /** The level-to-name table, in its declaration order (the order the name search visits it). */
  const SeveritiesToName: seq<(int, string)> := [(SeverityCoverage, "COVERAGE"), (SeverityFull, "FULL")]

  /** The exceptions the severity helpers raise. */
  datatype Error =
    | ValueError(message: string)  // an unknown value of `SEVERITY`
    | KeyError(key: int)           // a skip for a level the table does not name

  /** Upper-casing of one character (ASCII letters only). */
  function UpperChar(c: char): (u: char)
    ensures !('a' <= u <= 'z')
    ensures u == c || ('a' <= c <= 'z' && 'A' <= u <= 'Z' && u as int - 'A' as int == c as int - 'a' as int)
  {
    if 'a' <= c <= 'z' then (c as int - 32) as char else c
  }

  /** Upper-casing of a string, character by character. */
  function Upper(s: string): (r: string)
    ensures |r| == |s|
    ensures forall i :: 0 <= i < |s| ==> r[i] == UpperChar(s[i])
  {
    if s == [] then [] else [UpperChar(s[0])] + Upper(s[1..])
  }

  /** Upper-casing twice is upper-casing once. */
  lemma UpperIdempotent(s: string)
    ensures Upper(Upper(s)) == Upper(s)
  {
  }

  /** The first table entry whose name is `name`, as the loop over the table finds it. */
  function LevelOf(table: seq<(int, string)>, name: string): (r: Option<int>)
    ensures r.Some? ==> exists i :: 0 <= i < |table| && table[i] == (r.value, name) &&
                                    forall j :: 0 <= j < i ==> table[j].1 != name
    ensures r.None? <==> forall i :: 0 <= i < |table| ==> table[i].1 != name
  {
    if table == [] then None
    else if table[0].1 == name then Some(table[0].0)
    else LevelOf(table[1..], name)
  }

  /** The name the table gives a level, as looking the key up in the table finds it. */
  function NameOf(table: seq<(int, string)>, level: int): (r: Option<string>)
    ensures r.Some? ==> exists i :: 0 <= i < |table| && table[i] == (level, r.value) &&
                                    forall j :: 0 <= j < i ==> table[j].0 != level
    ensures r.None? <==> forall i :: 0 <= i < |table| ==> table[i].0 != level
  {
    if table == [] then None
    else if table[0].0 == level then Some(table[0].1)
    else NameOf(table[1..], level)
  }

  /** The current severity, from the value of `SEVERITY` (`None` when it is not set). */
  function GetSeverity(env: Option<string>): (r: Result<int, Error>)
    ensures env.None? ==> r == Success(0)
    ensures env == Some("") ==> r == Success(0)
    ensures env.Some? && env.value != "" ==>
              (r == Success(SeverityCoverage) <==> Upper(env.value) == "COVERAGE") &&
              (r == Success(SeverityFull) <==> Upper(env.value) == "FULL") &&
              (r.Failure? <==> Upper(env.value) != "COVERAGE" && Upper(env.value) != "FULL")
    ensures r.Failure? ==> env.Some? && r.error == ValueError("Unknown SEVERITY \"" + env.value + "\"")
    ensures r.Success? ==> r.value in {0, SeverityCoverage, SeverityFull}
  {
    match env
    case None => Success(0)
    case Some(s) =>
      if s == "" then Success(0)
      else
        assert SeveritiesToName[0] == (SeverityCoverage, "COVERAGE") && SeveritiesToName[1] == (SeverityFull, "FULL");
        match LevelOf(SeveritiesToName, Upper(s))
        case Some(k) => Success(k)
        case None => Failure(ValueError("Unknown SEVERITY \"" + s + "\""))
  }

  /** What the `severity(level)` decorator does to the test it marks. */
  datatype Decision = Run | Skip(reason: string)

  /** The decorator's decision for a test of severity `level` under the setting `env`. */
  function SeverityDecision(level: int, env: Option<string>): (r: Result<Decision, Error>)
    ensures GetSeverity(env).Failure? ==> r == Failure(GetSeverity(env).error)
    ensures GetSeverity(env).Success? && level <= GetSeverity(env).value ==> r == Success(Run)
    ensures GetSeverity(env).Success? && level > GetSeverity(env).value ==>
              if level == SeverityCoverage then r == Success(Skip("requires severity COVERAGE"))
              else if level == SeverityFull then r == Success(Skip("requires severity FULL"))
              else r == Failure(KeyError(level))
  {
    match GetSeverity(env)
    case Failure(e) => Failure(e)
    case Success(current) =>
      if level > current then
        assert SeveritiesToName[0] == (SeverityCoverage, "COVERAGE") && SeveritiesToName[1] == (SeverityFull, "FULL");
        assert SeveritiesToName[1..][0] == SeveritiesToName[1];
        match NameOf(SeveritiesToName, level)
        case Some(name) =>
          assert "requires severity " + "COVERAGE" == "requires severity COVERAGE";
          assert "requires severity " + "FULL" == "requires severity FULL";
          Success(Skip("requires severity " + name))
        case None => Failure(KeyError(level))
      else Success(Run)
  }

  /** The outcome depends on the setting only through its upper-cased spelling (a failure's message quotes the raw value). */
  lemma DecisionIgnoresCase(level: int, s: string, t: string)
    requires Upper(s) == Upper(t)
    ensures GetSeverity(Some(s)).Success? == GetSeverity(Some(t)).Success?
    ensures GetSeverity(Some(s)).Success? ==> GetSeverity(Some(s)) == GetSeverity(Some(t))
    ensures SeverityDecision(level, Some(s)).Success? == SeverityDecision(level, Some(t)).Success?
    ensures SeverityDecision(level, Some(s)).Success? ==> SeverityDecision(level, Some(s)) == SeverityDecision(level, Some(t))
  {
  }

  /** Examples: any letter case is accepted, but the spelling must otherwise be exact. */
  lemma SpellingExamples()
    ensures GetSeverity(Some("coverage")) == Success(SeverityCoverage)
    ensures GetSeverity(Some("Full")) == Success(SeverityFull)
    ensures GetSeverity(Some("FULL ")).Failure?
    ensures GetSeverity(Some("0")).Failure?
  {
  }

  /** A test that runs at some level also runs at every lower level. */
  lemma DecisionMonotone(level: int, lower: int, env: Option<string>)
    requires SeverityDecision(level, env) == Success(Run)
    requires lower <= level
    ensures SeverityDecision(lower, env) == Success(Run)
  {
  }

  /** Under a valid setting, the known levels never raise `KeyError`: they skip exactly when the setting is below them. */
  lemma KnownLevelNeverFails(level: int, env: Option<string>)
    requires level == SeverityCoverage || level == SeverityFull
    requires GetSeverity(env).Success?
    ensures SeverityDecision(level, env).Success?
    ensures SeverityDecision(level, env).value.Skip? <==> GetSeverity(env).value < level
  {
  }

  /** A `COVERAGE` test runs exactly when `SEVERITY` is `COVERAGE` or `FULL`, in any case. */
  lemma CoverageTestRuns(env: Option<string>)
    ensures SeverityDecision(SeverityCoverage, env) == Success(Run) <==>
            env.Some? && (Upper(env.value) == "COVERAGE" || Upper(env.value) == "FULL")
  {
  }
}
