/** The copy of `minsToHours` kept in utility/Util.kt. */
module UtilityUtil {
  import opened KotlinInt
  import opened KotlinText
  import CommonUtil

  /** The same body as the common utility's, so the same text for every minute count. */
  function MinsToHours(minutes: Int32): (r: string)
    ensures r == CommonUtil.MinsToHours(minutes)
  {
    var hours := TruncDiv(minutes, 60);
    var minutesRemaining := minutes - hours * 60;
    IntToString(hours) + "h " + IntToString(minutesRemaining) + "m"
  }
}
