/**
  The month labels of the statistics tool (cmd/statistics): the table of
  month names and `transformMonthName`, which turns two-digit month keys
  into the "MM - Name" options of its month prompt.
 */
module StatisticsHelper {

  /** `monthNames`. */
  const MonthNames: map<string, string> := map[
    "01" := "January", "02" := "February", "03" := "March",
    "04" := "April", "05" := "May", "06" := "June",
    "07" := "July", "08" := "August", "09" := "September",
    "10" := "October", "11" := "November", "12" := "December"]

  /** The month keys, in calendar order. */
  const MonthKeys: seq<string> := ["01", "02", "03", "04", "05", "06", "07", "08", "09", "10", "11", "12"]

  /** `monthNames[key]`: Go's map index yields "" for a missing key. */
  function MonthName(key: string): string
  {
    if key in MonthNames then MonthNames[key] else ""
  }

  /** The label `fmt.Sprintf("%s - %s", month, monthNames[month])`. */
  function MonthLabel(month: string): string
  {
    month + " - " + MonthName(month)
  }

  /** The table's keys are exactly the twelve keys "01".."12". */
  lemma MonthNamesKeys()
    ensures forall k :: k in MonthNames <==> k in MonthKeys
  {
  }

  /** The key of a month name: the inverse of the table. */
  function MonthKey(name: string): string
  {
    match name
    case "January" => "01"
    case "February" => "02"
    case "March" => "03"
    case "April" => "04"
    case "May" => "05"
    case "June" => "06"
    case "July" => "07"
    case "August" => "08"
    case "September" => "09"
    case "October" => "10"
    case "November" => "11"
    case "December" => "12"
    case _ => ""
  }

  /** Looking a key's name up backwards gives the key. */
  lemma MonthKeyRoundTrip(key: string)
    requires key in MonthNames
    ensures MonthKey(MonthNames[key]) == key
  {
    EarlyMonthKeys();
    LateMonthKeys();
  }

  lemma EarlyMonthKeys()
    ensures MonthKey(MonthNames["01"]) == "01" && MonthKey(MonthNames["02"]) == "02"
    ensures MonthKey(MonthNames["03"]) == "03" && MonthKey(MonthNames["04"]) == "04"
    ensures MonthKey(MonthNames["05"]) == "05" && MonthKey(MonthNames["06"]) == "06"
  {
    assert MonthNames["01"] == "January" && MonthNames["02"] == "February";
    assert MonthNames["03"] == "March" && MonthNames["04"] == "April";
    assert MonthNames["05"] == "May" && MonthNames["06"] == "June";
  }

  lemma LateMonthKeys()
    ensures MonthKey(MonthNames["07"]) == "07" && MonthKey(MonthNames["08"]) == "08"
    ensures MonthKey(MonthNames["09"]) == "09" && MonthKey(MonthNames["10"]) == "10"
    ensures MonthKey(MonthNames["11"]) == "11" && MonthKey(MonthNames["12"]) == "12"
  {
    assert MonthNames["07"] == "July" && MonthNames["08"] == "August";
    assert MonthNames["09"] == "September" && MonthNames["10"] == "October";
    assert MonthNames["11"] == "November" && MonthNames["12"] == "December";
  }

  /** No two months share a name, and no name is empty. */
  lemma MonthNamesDistinct(k1: string, k2: string)
    requires k1 in MonthNames && k2 in MonthNames && k1 != k2
    ensures MonthNames[k1] != MonthNames[k2]
    ensures MonthNames[k1] != ""
  {
    MonthKeyRoundTrip(k1);
    MonthKeyRoundTrip(k2);
  }

  /** A key outside "01".."12" gets the empty name, so its label is the key and " - ". */
  lemma UnknownMonthLabel(month: string)
    requires month !in MonthKeys
    ensures MonthLabel(month) == month + " - "
  {
  }

  /**
    The slices the statistics service takes of a selected label: the first two
    characters give back a two-character key and what follows the " - " gives
    back its name.
   */
  lemma LabelRoundTrip(month: string)
    requires |month| == 2
    ensures MonthLabel(month)[..2] == month
    ensures MonthLabel(month)[5..] == MonthName(month)
  {
  }

  /** `transformMonthName(months...)`: one label per key, in the same order. */
  method TransformMonthName(months: seq<string>) returns (names: seq<string>)
    ensures |names| == |months|
    ensures forall i :: 0 <= i < |months| ==> names[i] == MonthLabel(months[i])
  {
    names := [];
    for i := 0 to |months|
      invariant |names| == i
      invariant forall j :: 0 <= j < i ==> names[j] == MonthLabel(months[j])
    {
      names := names + [MonthLabel(months[i])];
    }
  }
}
