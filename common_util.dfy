/** `minsToHours` of common/utility/Util.kt: a film's running time as hours and minutes. */
module CommonUtil {
  import opened Option
  import opened KotlinInt
  import opened KotlinText

  /**
   * The two numbers minsToHours prints: `minutes / 60` with Kotlin's truncating
   * division, and what is left over.  Both fit in an `Int`, so nothing overflows.
   */
  function HoursAndMinutes(minutes: Int32): (hm: (Int32, Int32))
    ensures hm.0 * 60 + hm.1 == minutes
    ensures 0 <= minutes ==> 0 <= hm.0 && 0 <= hm.1 < 60
    ensures minutes <= 0 ==> hm.0 <= 0 && -60 < hm.1 <= 0
  {
    var hours := TruncDiv(minutes, 60);
    assert Abs(hours * 60) <= Abs(minutes);
    (hours, minutes - hours * 60)
  }

  /**
   * The hours are the quotient rounded toward zero: the split above is the only one
   * whose leftover lies in 0..59 for a non-negative count and in -59..0 for a negative one.
   */
  lemma HoursAreTruncatedQuotient(minutes: Int32, hours: int, minutesRemaining: int)
    requires hours * 60 + minutesRemaining == minutes
    requires 0 <= minutes ==> 0 <= minutesRemaining < 60
    requires minutes < 0 ==> -60 < minutesRemaining <= 0
    ensures HoursAndMinutes(minutes) == (hours, minutesRemaining)
  {
    assert minutes - hours * 60 == minutesRemaining;
    TruncDivUnique(minutes, 60, hours);
  }

  /** Kotlin's minsToHours: `"<hours>h <minutesRemaining>m"`. */
  function MinsToHours(minutes: Int32): (r: string)
    ensures ReadHoursMinutes(r) == Some(HoursAndMinutes(minutes))
  {
    var (hours, minutesRemaining) := HoursAndMinutes(minutes);
    var r := IntToString(hours) + "h " + IntToString(minutesRemaining) + "m";
    ReadRendered(hours, minutesRemaining);
    r
  }

  /** Reads `"<h>h <m>m"` back into the pair (h, m); the inverse of MinsToHours. */
  function ReadHoursMinutes(s: string): Option<(int, int)> {
    var i := IndexOf(s, 'h');
    if 0 <= i && i + 2 < |s| && s[i + 1] == ' ' && s[|s| - 1] == 'm' then
      match (ParseInt(s[..i]), ParseInt(s[i + 2..|s| - 1]))
      case (Some(h), Some(m)) => Some((h, m))
      case _ => None
    else None
  }

  lemma ReadRendered(h: int, m: int)
    ensures ReadHoursMinutes(IntToString(h) + "h " + IntToString(m) + "m") == Some((h, m))
  {
    var a, b := IntToString(h), IntToString(m);
    var s := a + "h " + b + "m";
    NotInIntToString(h, 'h');
    assert IndexOf(s, 'h') == |a| by {
      forall j | 0 <= j < |a| ensures s[j] != 'h' { assert s[j] == a[j]; }
      assert s[|a|] == 'h';
    }
    assert s[..|a|] == a;
    assert s[|a| + 2..|s| - 1] == b;
    IntToStringRoundTrip(h);
    IntToStringRoundTrip(m);
  }

  /** A text reads back only if it is the rendering of the pair it reads as. */
  lemma ReadHoursMinutesCanonical(s: string)
    ensures ReadHoursMinutes(s).Some? ==>
      s == IntToString(ReadHoursMinutes(s).value.0) + "h " + IntToString(ReadHoursMinutes(s).value.1) + "m"
  {
    if ReadHoursMinutes(s).Some? {
      var i := IndexOf(s, 'h');
      var a, b := s[..i], s[i + 2..|s| - 1];
      ParseIntCanonical(a);
      ParseIntCanonical(b);
      assert s == a + "h " + b + "m";
    }
  }

  /**
   * At most one text reads back as a given pair; with MinsToHours' own contract,
   * this fixes its result as the rendering of the hours and the leftover minutes.
   */
  lemma MinsToHoursIsTheRendering(minutes: Int32, s: string)
    requires ReadHoursMinutes(s) == Some(HoursAndMinutes(minutes))
    ensures s == MinsToHours(minutes)
    ensures s == IntToString(HoursAndMinutes(minutes).0) + "h " + IntToString(HoursAndMinutes(minutes).1) + "m"
  {
    ReadHoursMinutesCanonical(s);
    ReadHoursMinutesCanonical(MinsToHours(minutes));
  }

  lemma MinsToHoursExamples()
    ensures MinsToHours(125) == "2h 5m"
    ensures MinsToHours(59) == "0h 59m"
    ensures MinsToHours(-61) == "-1h -1m"
  {
    HoursAreTruncatedQuotient(125, 2, 5);
    HoursAreTruncatedQuotient(59, 0, 59);
    HoursAreTruncatedQuotient(-61, -1, -1);
    assert IntToString(2) == "2" && IntToString(5) == "5" && IntToString(0) == "0";
    assert NatToString(59) == NatToString(5) + [DigitChar(9)] == "59";
    assert IntToString(-1) == "-" + NatToString(1) == "-1";
    assert "2" + "h " + "5" + "m" == "2h 5m";
    assert "0" + "h " + "59" + "m" == "0h 59m";
    assert "-1" + "h " + "-1" + "m" == "-1h -1m";
  }
}
