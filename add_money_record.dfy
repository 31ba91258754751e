/**
 * The money-record form of the AddMoneyRecord screen: the keystroke filters of its
 * three text fields, the submit-time check `validateInputs`, `createRecord`, and the
 * form state those update.
 */
module MoneyRecordInput {
  import opened Option
  import opened KotlinText
  import opened Records
  import MovieData

  // ----- the keystroke filters -----

  /** `^\d{0,4}$`: up to four ASCII digits. */
  predicate MatchesYear(s: string) {
    |s| <= 4 && AllDigits(s)
  }

  /** The length of the run of digits `s` starts with. */
  function LeadingDigits(s: string): (k: nat)
    ensures k <= |s| && AllDigits(s[..k])
    ensures k < |s| ==> !IsDigit(s[k])
  {
    if s == [] || !IsDigit(s[0]) then 0
    else
      var k := LeadingDigits(s[1..]);
      assert s[..k + 1] == [s[0]] + s[1..][..k];
      k + 1
  }

  /** `^\d+(\.\d{0,2})?$`: one or more digits, then optionally a point and at most two digits. */
  predicate MatchesAmount(s: string) {
    var k := LeadingDigits(s);
    k >= 1 && (k == |s| || (s[k] == '.' && |s| - k - 1 <= 2 && AllDigits(s[k + 1..])))
  }

  /** `[0-5]?\d`: a minute or second count, 0 to 59, with an optional leading digit. */
  predicate IsSexagesimal(f: string) {
    || (|f| == 1 && IsDigit(f[0]))
    || (|f| == 2 && '0' <= f[0] <= '5' && IsDigit(f[1]))
  }

  /** `([0-5]?\d)?`: the same, or nothing. */
  predicate IsOptionalSexagesimal(f: string) {
    f == [] || IsSexagesimal(f)
  }

  /** `[01]?\d|2[0-3]`: an hour count, 0 to 23, with an optional leading digit. */
  predicate IsHour(f: string) {
    || (|f| == 1 && IsDigit(f[0]))
    || (|f| == 2 && (('0' <= f[0] <= '1' && IsDigit(f[1])) || (f[0] == '2' && '0' <= f[1] <= '3')))
  }

  /**
   * `^(?:(?:([01]?\d|2[0-3]):)?([0-5]?\d)?:)?([0-5]?\d)?$` read off the colon-separated
   * fields: `[S]`, `[M]:[S]` or `H:[M]:[S]`.
   */
  predicate MatchesTimestampFields(f: seq<string>) {
    || (|f| == 1 && IsOptionalSexagesimal(f[0]))
    || (|f| == 2 && IsOptionalSexagesimal(f[0]) && IsOptionalSexagesimal(f[1]))
    || (|f| == 3 && IsHour(f[0]) && IsOptionalSexagesimal(f[1]) && IsOptionalSexagesimal(f[2]))
  }

  predicate MatchesTimestamp(s: string) {
    MatchesTimestampFields(SplitOn(s, ':'))
  }

  /** The condition of each `onValueChange`: `it.isEmpty() || it.matches(pattern)`. */
  predicate AcceptsYear(s: string) {
    s == [] || MatchesYear(s)
  }

  predicate AcceptsAmount(s: string) {
    s == [] || MatchesAmount(s)
  }

  predicate AcceptsTimestamp(s: string) {
    s == [] || MatchesTimestamp(s)
  }

  // ----- validateInputs and createRecord -----

  /**
   * validateInputs: a year of at least four characters, an amount not ending in a
   * point, a timestamp not ending in a colon, and none of the three empty.
   */
  function ValidateInputs(year: string, amount: string, timestamp: string): (ok: bool)
    ensures ok <==>
      && |year| >= 4
      && amount != [] && amount[|amount| - 1] != '.'
      && timestamp != [] && timestamp[|timestamp| - 1] != ':'
  {
    if |year| < 4 then false
    else if amount != [] && amount[|amount| - 1] == '.' then false
    else if timestamp != [] && timestamp[|timestamp| - 1] == ':' then false
    else year != [] && amount != [] && timestamp != []
  }

  function CreateRecord(year: string, amount: string, timestamp: string): (r: MoneyRecord)
    ensures r.year == year && r.amount == amount && r.timestamp == timestamp
  {
    MoneyRecord(year, amount, timestamp)
  }

  lemma ValidateInputsExamples()
    ensures ValidateInputs("1990", "25.50", "1:30:00")
    ensures !ValidateInputs("199", "25.50", "1:30:00")
    ensures !ValidateInputs("1990", "25.", "1:30:00")
    ensures !ValidateInputs("1990", "25.50", "30:")
    ensures !ValidateInputs("1990", "", "1:30:00")
  {
  }

  /** A year the field let through and validation passed is exactly four digits. */
  lemma ValidatedYearIsFourDigits(year: string, amount: string, timestamp: string)
    requires AcceptsYear(year) && ValidateInputs(year, amount, timestamp)
    ensures |year| == 4 && AllDigits(year)
  {
  }

  /** A validated amount the field let through is digits, or digits, a point and one or two digits. */
  lemma ValidatedAmountShape(year: string, amount: string, timestamp: string)
    requires AcceptsAmount(amount) && ValidateInputs(year, amount, timestamp)
    ensures var k := LeadingDigits(amount);
      && k >= 1
      && (k == |amount| || (amount[k] == '.' && 1 <= |amount| - k - 1 <= 2 && AllDigits(amount[k + 1..])))
  {
    var k := LeadingDigits(amount);
    assert MatchesAmount(amount);
    assert k < |amount| ==> amount[k] == '.' && k != |amount| - 1;
  }

  /**
   * A validated timestamp the field let through has its seconds: its last field is
   * not empty, which the trailing-colon check is there for.
   */
  lemma ValidatedTimestampHasSeconds(year: string, amount: string, timestamp: string)
    requires AcceptsTimestamp(timestamp) && ValidateInputs(year, amount, timestamp)
    ensures var f := SplitOn(timestamp, ':'); IsSexagesimal(f[|f| - 1])
  {
    var f := SplitOn(timestamp, ':');
    if f[|f| - 1] == [] {
      JoinWithSplitOn(timestamp, ':');
      JoinWithLastField(f, ':');
      assert false;
    }
  }

  /** The join of several fields ends with the separator and the last field. */
  lemma {:induction false} JoinWithLastField(fields: seq<string>, c: char)
    requires |fields| >= 1
    ensures |fields| == 1 ==> JoinWith(fields, c) == fields[0]
    ensures |fields| >= 2 ==>
      JoinWith(fields, c) == JoinWith(fields[..|fields| - 1], c) + [c] + fields[|fields| - 1]
  {
    if |fields| >= 3 {
      var rest := fields[1..];
      JoinWithLastField(rest, c);
      assert rest[..|rest| - 1] == fields[..|fields| - 1][1..];
    }
  }

  // ----- what the filters let through -----

  lemma AmountFilterExamples()
    ensures AcceptsAmount("25.50") && AcceptsAmount("7") && AcceptsAmount("3.")
    ensures !AcceptsAmount(".") && !AcceptsAmount(".5") && !AcceptsAmount("1.234")
  {
    assert LeadingDigits("25.50") == 2 by {
      assert "25.50"[1..] == "5.50" && "5.50"[1..] == ".50";
    }
    assert "25.50"[3..] == "50";
    assert LeadingDigits("3.") == 1 by { assert "3."[1..] == "."; }
    assert LeadingDigits("1.234") == 1 by { assert "1.234"[1..] == ".234"; }
  }

  lemma TimestampFilterAcceptsClock()
    ensures AcceptsTimestamp("1:30:00")
  {
    SplitsIntoThree("1", "30", "00");
    assert "1" + ":" + "30" + ":" + "00" == "1:30:00";
  }

  /** Seconds alone, and minutes typed before their seconds. */
  lemma TimestampFilterAcceptsPartial()
    ensures AcceptsTimestamp("6") && AcceptsTimestamp("30:")
  {
    SplitOnJoinWith(["6"], ':');
    SplitsIntoTwo("30", "");
  }

  lemma TimestampFilterRejectsSixty()
    ensures !AcceptsTimestamp("60")
  {
    SplitOnJoinWith(["60"], ':');
  }

  lemma TimestampFilterRejectsHour24()
    ensures !AcceptsTimestamp("24:00:00")
  {
    SplitsIntoThree("24", "00", "00");
    assert "24" + ":" + "00" + ":" + "00" == "24:00:00";
  }

  lemma SplitsIntoTwo(a: string, b: string)
    requires ':' !in a && ':' !in b
    ensures SplitOn(a + ":" + b, ':') == [a, b]
  {
    var fields := [a, b];
    assert fields[1..] == [b];
    SplitOnJoinWith(fields, ':');
  }

  lemma SplitsIntoThree(a: string, b: string, c: string)
    requires ':' !in a && ':' !in b && ':' !in c
    ensures SplitOn(a + ":" + b + ":" + c, ':') == [a, b, c]
  {
    var fields := [a, b, c];
    assert fields[1..] == [b, c] && fields[1..][1..] == [c];
    assert JoinWith(fields[1..], ':') == b + ":" + c;
    assert a + ":" + b + ":" + c == a + ":" + (b + ":" + c);
    SplitOnJoinWith(fields, ':');
  }

  /** An amount of the shape `digits` or `digits.` followed by up to two digits passes the filter. */
  lemma AmountOfShapeAccepted(whole: string, fraction: string)
    requires |whole| >= 1 && AllDigits(whole) && AllDigits(fraction) && |fraction| <= 2
    ensures MatchesAmount(whole)
    ensures MatchesAmount(whole + "." + fraction)
  {
    LeadingDigitsOfRun(whole, []);
    LeadingDigitsOfRun(whole, "." + fraction);
    assert (whole + "." + fraction)[|whole| + 1..] == fraction;
  }

  /** A run of digits followed by a non-digit (or nothing) is counted up to that non-digit. */
  lemma {:induction false} LeadingDigitsOfRun(digits: string, rest: string)
    requires AllDigits(digits)
    requires rest == [] || !IsDigit(rest[0])
    ensures LeadingDigits(digits + rest) == |digits|
  {
    if digits != [] {
      assert (digits + rest)[1..] == digits[1..] + rest;
      LeadingDigitsOfRun(digits[1..], rest);
    } else {
      assert digits + rest == rest;
    }
  }

  // ----- the timestamp as a clock reading -----

  lemma OptionalSexagesimalValue(f: string)
    requires IsOptionalSexagesimal(f)
    ensures AllDigits(f) && DigitsValue(f) <= 59
  {
    if |f| >= 1 { DigitsValueShort(f); }
  }

  lemma HourValue(f: string)
    requires IsHour(f)
    ensures AllDigits(f) && DigitsValue(f) <= 23
  {
    DigitsValueShort(f);
  }

  /** The value of one or two digits. */
  lemma DigitsValueShort(f: string)
    requires 1 <= |f| <= 2 && AllDigits(f)
    ensures |f| == 1 ==> DigitsValue(f) == DigitValue(f[0])
    ensures |f| == 2 ==> DigitsValue(f) == DigitValue(f[0]) * 10 + DigitValue(f[1])
  {
    assert f[..1][..0] == [];
    assert f[..|f| - 1] == f[..1] || |f| == 1;
  }

  /**
   * The hours, minutes and seconds an accepted timestamp denotes, missing fields
   * counting as zero: hours 0 to 23, minutes and seconds 0 to 59.
   */
  function TimestampParts(s: string): (parts: (nat, nat, nat))
    requires MatchesTimestamp(s)
    ensures parts.0 <= 23 && parts.1 <= 59 && parts.2 <= 59
  {
    var f := SplitOn(s, ':');
    if |f| == 1 then
      OptionalSexagesimalValue(f[0]);
      (0, 0, DigitsValue(f[0]))
    else if |f| == 2 then
      OptionalSexagesimalValue(f[0]);
      OptionalSexagesimalValue(f[1]);
      (0, DigitsValue(f[0]), DigitsValue(f[1]))
    else
      HourValue(f[0]);
      OptionalSexagesimalValue(f[1]);
      OptionalSexagesimalValue(f[2]);
      (DigitsValue(f[0]), DigitsValue(f[1]), DigitsValue(f[2]))
  }

  /** A count below 60 as two digits, with a leading zero. */
  function TwoDigits(n: nat): (s: string)
    requires n < 60
    ensures |s| == 2 && IsSexagesimal(s) && DigitsValue(s) == n
  {
    var s := [DigitChar(n / 10), DigitChar(n % 10)];
    DigitsValueShort(s);
    s
  }

  /** The `H:MM:SS` reading the form's hint text asks for. */
  function ClockText(h: nat, m: nat, sec: nat): string
    requires h <= 23 && m < 60 && sec < 60
  {
    NatToString(h) + ":" + TwoDigits(m) + ":" + TwoDigits(sec)
  }

  /** Every clock reading from 0:00:00 to 23:59:59 passes the filter and reads back as itself. */
  lemma ClockTextRoundTrip(h: nat, m: nat, sec: nat)
    requires h <= 23 && m < 60 && sec < 60
    ensures MatchesTimestamp(ClockText(h, m, sec))
    ensures TimestampParts(ClockText(h, m, sec)) == (h, m, sec)
  {
    var hs, ms, ss := NatToString(h), TwoDigits(m), TwoDigits(sec);
    HourText(h);
    assert ':' !in hs by { forall i | 0 <= i < |hs| ensures hs[i] != ':' { assert IsDigit(hs[i]); } }
    assert ':' !in ms && ':' !in ss;
    SplitsIntoThree(hs, ms, ss);
    NatToStringValue(h);
  }

  lemma HourText(h: nat)
    requires h <= 23
    ensures IsHour(NatToString(h))
  {
    if h >= 10 {
      assert NatToString(h / 10) == [DigitChar(h / 10)];
    }
  }

  // ----- every accepted value can be typed a key at a time -----

  /** Each filter accepts every prefix of a value it accepts, so typing it key by key never gets stuck. */
  lemma YearFilterPrefixClosed(s: string, n: nat)
    requires AcceptsYear(s) && n <= |s|
    ensures AcceptsYear(s[..n])
  {
    forall i | 0 <= i < n ensures IsDigit(s[..n][i]) {
      assert s[..n][i] == s[i];
    }
  }

  lemma AmountFilterPrefixClosed(s: string, n: nat)
    requires AcceptsAmount(s) && n <= |s|
    ensures AcceptsAmount(s[..n])
  {
    if n > 0 {
      var k := LeadingDigits(s);
      var p := s[..n];
      if n <= k {
        assert AllDigits(p) by {
          forall i | 0 <= i < n ensures IsDigit(p[i]) { assert p[i] == s[..k][i]; }
        }
        LeadingDigitsOfRun(p, []);
        assert p + [] == p;
      } else {
        var digits, rest := s[..k], s[k..n];
        assert p == digits + rest;
        assert rest[0] == '.';
        LeadingDigitsOfRun(digits, rest);
        var fraction := p[k + 1..];
        assert AllDigits(fraction) by {
          forall i | 0 <= i < |fraction| ensures IsDigit(fraction[i]) {
            assert fraction[i] == s[k + 1..][i];
          }
        }
      }
    }
  }

  lemma TimestampFilterPrefixClosed(s: string, n: nat)
    requires AcceptsTimestamp(s) && n <= |s|
    ensures AcceptsTimestamp(s[..n])
  {
    if s != [] {
      SplitOnPrefix(s, ':', n);
      TimestampFieldsPrefixClosed(SplitOn(s[..n], ':'), SplitOn(s, ':'));
    }
  }

  lemma TimestampFieldsPrefixClosed(g: seq<string>, f: seq<string>)
    requires FieldsPrefix(g, f) && MatchesTimestampFields(f)
    ensures MatchesTimestampFields(g)
  {
    var last := g[|g| - 1];
    OptionalSexagesimalPrefix(last, f[|g| - 1]);
    if |f| == 3 {
      assert g[..|g| - 1] == f[..|g| - 1];
      if |g| == 1 {
        HourPrefix(last, f[0]);
      } else if |g| == 2 {
        assert g[0] == f[0];
        HourPrefix(g[0], f[0]);
      }
    } else if |f| == 2 && |g| == 2 {
      assert g[0] == f[..1][0];
    }
  }

  lemma OptionalSexagesimalPrefix(p: string, f: string)
    requires p <= f
    ensures IsOptionalSexagesimal(f) ==> IsOptionalSexagesimal(p)
  {
    if |p| >= 1 { assert p[0] == f[0]; }
    if |p| == 2 && IsOptionalSexagesimal(f) { assert p == f[..2] && f[..2] == f; }
  }

  /** Hours, and what typing them passes through, are minute-or-second fields too. */
  lemma HourPrefix(p: string, f: string)
    requires p <= f && IsHour(f)
    ensures IsOptionalSexagesimal(p)
  {
    if |p| >= 1 { assert p[0] == f[0]; }
    if |p| == 2 { assert p == f[..2] && f[..2] == f; }
  }

  // ----- the form -----

  /**
   * What the upload callback did: returned a value, or threw.  The callback the
   * application passes in is the view-model's addMoneyRecord, which returns whether
   * the write was stored.
   */
  datatype UploadResult = Returned(value: bool) | Threw

  /**
   * The effect's `succeeded` as written: `try { onClickUpload(...); true } catch
   * { false }` drops the callback's answer, so any return counts as success.
   */
  predicate UploadSucceededAsWritten(result: UploadResult) {
    result.Returned?
  }

  /** The evidently intended success: the callback returned `true`. */
  predicate UploadSucceeded(result: UploadResult) {
    result == Returned(true)
  }

  /**
   * With no movie selected, addMoneyRecord writes nothing and answers `false`, yet
   * the screen as written pops itself as after a successful upload.
   */
  lemma NullMovieUploadPopsAsWritten(record: MoneyRecord, time: int, storeSucceeds: bool)
    ensures var result := Returned(MovieData.AddMoneyRecord(None, record, time, storeSucceeds).0);
      UploadSucceededAsWritten(result) && !UploadSucceeded(result)
  {
  }

  /** The corrected test pops the screen exactly when a movie is selected and the store took the write. */
  lemma UploadSucceededIffStored(movieId: Option<int>, record: MoneyRecord, time: int, storeSucceeds: bool)
    ensures UploadSucceeded(Returned(MovieData.AddMoneyRecord(movieId, record, time, storeSucceeds).0))
      <==> movieId.Some? && storeSucceeds
  {
  }

  /**
   * The screen's state: the three fields, the last record the button created, and
   * the movie the screen was opened for.
   */
  class MoneyRecordForm {
    var year: string
    var amount: string
    var timestamp: string
    var record: Option<MoneyRecord>
    const movieId: Option<int>

    /** Every field holds a value its filter accepts. */
    ghost predicate Valid()
      reads this
    {
      AcceptsYear(year) && AcceptsAmount(amount) && AcceptsTimestamp(timestamp)
    }

    constructor(movieId: Option<int>)
      ensures Valid()
      ensures year == "" && amount == "" && timestamp == "" && record == None
      ensures this.movieId == movieId
    {
      year, amount, timestamp, record := "", "", "", None;
      this.movieId := movieId;
    }

    /** The year field's `onValueChange`: takes the new text only when the filter accepts it. */
    method OnYearChange(it: string)
      requires Valid()
      modifies this`year
      ensures Valid()
      ensures year == if AcceptsYear(it) then it else old(year)
    {
      if it == [] || MatchesYear(it) {
        year := it;
      }
    }

    method OnAmountChange(it: string)
      requires Valid()
      modifies this`amount
      ensures Valid()
      ensures amount == if AcceptsAmount(it) then it else old(amount)
    {
      if it == [] || MatchesAmount(it) {
        amount := it;
      }
    }

    method OnTimestampChange(it: string)
      requires Valid()
      modifies this`timestamp
      ensures Valid()
      ensures timestamp == if AcceptsTimestamp(it) then it else old(timestamp)
    {
      if it == [] || MatchesTimestamp(it) {
        timestamp := it;
      }
    }

    /**
     * The button: the record is set only when validation passes.  The upload
     * effect is keyed on `record`, so it starts (with the record the fields now
     * make) only when the record actually changed; the result is that upload.
     */
    method OnUploadClick() returns (upload: Option<MoneyRecord>)
      requires Valid()
      modifies this`record
      ensures Valid()
      ensures record == if ValidateInputs(year, amount, timestamp)
        then Some(CreateRecord(year, amount, timestamp)) else old(record)
      ensures upload == if record != old(record) then record else None
      ensures upload.Some? ==>
        && ValidateInputs(year, amount, timestamp)
        && upload.value == CreateRecord(year, amount, timestamp)
        && |upload.value.year| == 4 && AllDigits(upload.value.year)
    {
      var previous := record;
      if ValidateInputs(year, amount, timestamp) {
        record := Some(CreateRecord(year, amount, timestamp));
      }
      upload := if record != previous then record else None;
      if upload.Some? {
        ValidatedYearIsFourDigits(year, amount, timestamp);
      }
    }

    /**
     * The rest of the upload effect, as written: the record is written through
     * addMoneyRecord for this screen's movie, whose answer (`stored`) says whether
     * the store took it; addMoneyRecord never throws, so the effect's `succeeded`
     * is always true and the screen pops even when nothing was stored.
     */
    method FinishUpload(upload: MoneyRecord, time: int, storeSucceeds: bool)
      returns (write: Option<MovieData.RecordWrite>, stored: bool, popUp: bool)
      ensures write == MovieData.AddMoneyRecord(movieId, upload, time, storeSucceeds).1
      ensures stored <==> movieId.Some? && storeSucceeds
      ensures popUp
    {
      var answer := MovieData.AddMoneyRecord(movieId, upload, time, storeSucceeds);
      write, stored := answer.1, answer.0;
      popUp := UploadSucceededAsWritten(Returned(answer.0));
      UploadSucceededIffStored(movieId, upload, time, storeSucceeds);
    }
  }
}
