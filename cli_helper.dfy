/**
  Command-line helpers of cmd/helper: `GetLevel`, which maps a level name to
  zerolog's numeric level, and the validation callback that `EnumFlag`
  registers for a flag restricted to a list of allowed values.
 */
module CliHelper {
  import opened Wrappers

  /** The names `GetLevel` recognises, in the order of their levels. */
  const LevelNames: seq<string> := ["trace", "debug", "info", "warn", "error", "fatal", "panic", "disabled"]

  /** `GetLevel(level)`: the int8 level of a name, 6 for an unknown name. */
  function GetLevel(level: string): (r: int)
    ensures -1 <= r <= 7
    ensures r == 6 <==> level !in LevelNames
  {
    match level
    case "trace" => -1
    case "debug" => 0
    case "info" => 1
    case "warn" => 2
    case "error" => 3
    case "fatal" => 4
    case "panic" => 5
    case "disabled" => 7
    case _ => 6
  }

  /** The name of each level `GetLevel` can return for a recognised name. */
  function LevelName(value: int): (name: string)
    requires -1 <= value <= 7 && value != 6
    ensures name in LevelNames
  {
    if value == 7 then LevelNames[7] else LevelNames[value + 1]
  }

  /** Recognised names and the levels other than 6 correspond one to one. */
  lemma GetLevelRoundTrip(level: string, value: int)
    ensures level in LevelNames ==> LevelName(GetLevel(level)) == level
    ensures -1 <= value <= 7 && value != 6 ==> GetLevel(LevelName(value)) == value
  {
  }

  /** Distinct recognised names get distinct levels. */
  lemma GetLevelInjective(a: string, b: string)
    requires a in LevelNames && b in LevelNames && a != b
    ensures GetLevel(a) != GetLevel(b)
  {
    GetLevelRoundTrip(a, 0);
    GetLevelRoundTrip(b, 0);
  }

  /** The levels the repository's flags rely on. */
  lemma GetLevelValues()
    ensures GetLevel("trace") == -1 && GetLevel("debug") == 0 && GetLevel("info") == 1
    ensures GetLevel("warn") == 2 && GetLevel("error") == 3 && GetLevel("fatal") == 4
    ensures GetLevel("panic") == 5 && GetLevel("disabled") == 7 && GetLevel("") == 6
  {
  }

  /** The `*string` a flag writes into. */
  class StringVar {
    var value: string

    constructor (init: string)
      ensures value == init
    {
      value := init;
    }
  }

  /** The error `fmt.Errorf("must be one of %v", safeList)`. */
  datatype FlagError = MustBeOneOf(allowed: seq<string>)

  /**
    The callback `EnumFlag` passes to `flag.Func`: scans `safeList`; on the
    first entry equal to `flagValue` it stores the value and succeeds,
    otherwise it fails and leaves the target alone.
   */
  method EnumFlagCheck(target: StringVar, safeList: seq<string>, flagValue: string) returns (err: Option<FlagError>)
    modifies target
    ensures err.None? <==> flagValue in safeList
    ensures err.None? ==> target.value == flagValue
    ensures err.Some? ==> err.value == MustBeOneOf(safeList) && target.value == old(target.value)
  {
    for i := 0 to |safeList|
      invariant flagValue !in safeList[..i]
      invariant target.value == old(target.value)
    {
      if flagValue == safeList[i] {
        target.value := flagValue;
        return None;
      }
    }
    assert safeList[..|safeList|] == safeList;
    return Some(MustBeOneOf(safeList));
  }
}
