/**
 * The small helpers of app/utils.py, scripts/utils.py and
 * LandingPage/views.py: key selection in `get_json_data` and index picking in
 * `get_stats`.  Reading the file and fetching the page are left to the
 * caller; these functions start from the loaded data and the list of stat
 * texts.
 */
module PyUtils {
  import opened Common
  import opened Decimal

  /**
   * `get_json_data(key, path)` after `json.load`: the whole object when the key
   * is empty, otherwise `data[key]`.  Subscripting a dict with a missing key
   * raises KeyError; subscripting anything else with a string raises TypeError.
   */
  function GetJsonData(data: Json, key: string): (r: Result<Json>)
    ensures key == "" ==> r == Ok(data)
    ensures key != "" && data.JDict? && key in data.fields ==> r == Ok(data.fields[key])
    ensures key != "" && data.JDict? && key !in data.fields ==> r == Err(KeyError)
    ensures key != "" && !data.JDict? ==> r == Err(TypeError)
  {
    if key == "" then Ok(data)
    else match data
      case JDict(fields) => if key in fields then Ok(fields[key]) else Err(KeyError)
      case _ => Err(TypeError)
  }

  /** A key under which `get_json_data` finds something yields exactly that value. */
  lemma GetJsonDataFindsStoredKey(fields: Dict, key: string, v: Json)
    requires key != ""
    ensures GetJsonData(JDict(fields[key := v]), key) == Ok(v)
  {
  }

  /**
   * `get_stats` after the page is parsed: `[int(text[3]), int(text[9])]`,
   * evaluated left to right, so the first failing step decides the exception.
   */
  function GetStats(text: seq<string>): (r: Result<seq<int>>)
    ensures r.Ok? <==> |text| >= 10 && ParseInt(text[3]).Ok? && ParseInt(text[9]).Ok?
    ensures r.Ok? ==> r.value == [ParseInt(text[3]).value, ParseInt(text[9]).value]
    ensures |text| <= 3 ==> r == Err(IndexError)
    ensures |text| > 3 && ParseInt(text[3]).Err? ==> r == Err(ValueError)
    ensures |text| > 3 && ParseInt(text[3]).Ok? && |text| <= 9 ==> r == Err(IndexError)
  {
    if |text| <= 3 then Err(IndexError)
    else match ParseInt(text[3])
      case Err(e) => Err(e)
      case Ok(commits) =>
        if |text| <= 9 then Err(IndexError)
        else match ParseInt(text[9])
          case Err(e) => Err(e)
          case Ok(contribute) => Ok([commits, contribute])
  }

  /** When the fourth and tenth stat texts print natural numbers, `get_stats` reads those numbers back. */
  lemma GetStatsReadsPrintedCounts(text: seq<string>, commits: nat, contribute: nat)
    requires |text| >= 10
    requires text[3] == NatToString(commits) && text[9] == NatToString(contribute)
    ensures GetStats(text) == Ok([commits, contribute])
  {
    ParseIntOfNatToString(commits);
    ParseIntOfNatToString(contribute);
  }
}
