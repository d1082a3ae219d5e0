/** ISO 8601 text of dates and timestamps, and the width of the arithmetic. */
module IsoText {
  import opened Digits
  import opened Calendar

  predicate IsS32(x: int) {
    -0x8000_0000 <= x <= 0x7FFF_FFFF
  }

  // ---- 32-bit arithmetic ----

  /** Every signed intermediate value of the conversion to a date. */
  predicate CivilFits(days: int) {
    var z := days + 719468;
    var p := PartsOfDays(days);
    && IsS32(z) && IsS32(if z >= 0 then z else z - 146096)
    && IsS32(p.era * 146097) && IsS32(p.era * 400) && IsS32(p.yoe + p.era * 400) && IsS32(CivilFromDays(days).year)
  }

  /** No 32-bit value overflows, exactly up to the last day that the shift by
      719468 leaves in range. */
  lemma {:induction false} CivilFitsIff(days: int)
    requires IsS32(days)
    ensures CivilFits(days) <==> days <= 0x7FFF_FFFF - 719468
  {
    DaysPartsRoundTrip(days);
    EraOfDays(days + 719468);
  }

  /** Every signed intermediate value of the conversion to a day number. */
  predicate DaysFit(d: Date) {
    var p := PartsOfDate(d);
    var y := d.year - (if d.month <= 2 then 1 else 0);
    && IsS32(y) && IsS32(if y >= 0 then y else y - 399) && IsS32(p.era * 400)
    && IsS32(p.era * 146097) && IsS32(p.era * 146097 + (YearStart(p.yoe) + p.doy)) && IsS32(DaysFromCivil(d))
  }

  /** The first and the last date whose conversion stays in 32 bits. */
  const FIRST_DATE := Date(-5877641, 6, 23)
  const LAST_DATE := Date(5879610, 9, 9)

  lemma {:induction false} FirstDateIs()
    ensures IsDate(FIRST_DATE) && DaysFromCivil(FIRST_DATE) == -0x8000_0000
  {
    assert EraOf(-5877641) == -14695;
    assert DayOfYear(6, 23) == 114;
    assert YearStart(359) == 131121;
    assert PartsOfDate(FIRST_DATE) == Parts(-14695, 359, 114);
  }

  lemma {:induction false} LastDateIs()
    ensures IsDate(LAST_DATE) && DaysFromCivil(LAST_DATE) == 0x7FFF_FFFF - 719468
  {
    assert EraOf(5879610) == 14699;
    assert DayOfYear(9, 9) == 192;
    assert YearStart(10) == 3652;
    assert PartsOfDate(LAST_DATE) == Parts(14699, 10, 192);
  }

  /** No 32-bit value overflows exactly when the day number and its shift by 719468
      stay in range. */
  lemma {:induction false} DaysFitByNumber(d: Date)
    requires IsDate(d)
    ensures DaysFit(d) <==> -0x8000_0000 <= DaysFromCivil(d) <= 0x7FFF_FFFF - 719468
  {
    DateRoundTrip(d);
    EraIsFloor(d.year - (if d.month <= 2 then 1 else 0));
    YearOfEraIs(PartsOfDate(d).yoe, PartsOfDate(d).doy);
  }

  /** No 32-bit value overflows, exactly for the dates from the first to the last. */
  lemma {:induction false} DaysFitIff(d: Date)
    requires IsDate(d)
    ensures DaysFit(d) <==> !Earlier(d, FIRST_DATE) && !Earlier(LAST_DATE, d)
  {
    DaysFitByNumber(d);
    FirstDateIs();
    LastDateIs();
    DatesBetween(d, FIRST_DATE, LAST_DATE);
  }

  lemma {:induction false} DatesBetween(d: Date, first: Date, last: Date)
    requires IsDate(d) && IsDate(first) && IsDate(last)
    ensures !Earlier(d, first) && !Earlier(last, d) <==> DaysFromCivil(first) <= DaysFromCivil(d) <= DaysFromCivil(last)
  {
    StrictlyMonotone(d, first);
    StrictlyMonotone(last, d);
  }

  // ---- Dates ----

  function PrintYear(year: int): (s: string) {
    if year >= 0 then Padded(year, 4) else "-" + Padded(-year, 3)
  }

  function PrintCivil(d: Date): string {
    PrintYear(d.year) + "-" + Padded(d.month, 2) + "-" + Padded(d.day, 2)
  }

  function PrintDate(days: int): string {
    PrintCivil(CivilFromDays(days))
  }

  function DateOf(year: nat, month: nat, day: nat): Option<Date> {
    if month < 1 || month > 12 || day < 1 || day > 31 then None else Some(Date(year, month, day))
  }

  /** The date that a text names; its day may lie beyond the end of its month. */
  function ParseCivil(s: string): Option<Date> {
    if |s| != 10 || s[4] != '-' || s[7] != '-' then None
    else if !IsInteger(s[..4]) || !IsInteger(s[5..7]) || !IsInteger(s[8..10]) then None
    else DateOf(NumberOf(s[..4]), NumberOf(s[5..7]), NumberOf(s[8..10]))
  }

  function ParseDate(s: string): Option<int> {
    match ParseCivil(s)
    case None => None
    case Some(d) => Some(DaysFromCivil(d))
  }

  predicate FourDigitYear(year: int) {
    0 <= year <= 9999
  }

  lemma {:induction false} YearText(year: int)
    ensures FourDigitYear(year) ==> |PrintYear(year)| == 4 && IsInteger(PrintYear(year)) && NumberOf(PrintYear(year)) == year
    ensures !FourDigitYear(year) ==> |PrintYear(year)| > 4 || (|PrintYear(year)| == 4 && PrintYear(year)[0] == '-')
  {
    assert Pow10(4) == 10000 && Pow10(3) == 1000;
    if year >= 0 {
      PaddedRoundTrip(year, 4);
      if year > 9999 {
        PrintIsLong(year, 4);
      }
    } else {
      PaddedRoundTrip(-year, 3);
      if -year >= 1000 {
        PrintIsLong(-year, 3);
      }
    }
  }

  lemma {:induction false} TwoDigits(n: nat)
    requires n < 100
    ensures |Padded(n, 2)| == 2 && IsInteger(Padded(n, 2)) && NumberOf(Padded(n, 2)) == n
  {
    assert Pow10(2) == 100;
    PaddedRoundTrip(n, 2);
  }

  /** The parts of a date text are found where they were put. */
  lemma {:induction false} ParseJoined(year: string, month: string, day: string)
    requires IsInteger(month) && |month| == 2 && IsInteger(day) && |day| == 2
    requires |year| == 4 ==> IsInteger(year) || year[0] == '-'
    requires |year| >= 4
    ensures ParseCivil(year + "-" + month + "-" + day) ==
            if |year| == 4 && IsInteger(year) then DateOf(NumberOf(year), NumberOf(month), NumberOf(day)) else None
  {
    var s := year + "-" + month + "-" + day;
    if |year| == 4 {
      assert s[..4] == year && s[5..7] == month && s[8..10] == day;
      assert year[0] == '-' ==> !IsInteger(year);
    }
  }

  lemma {:induction false} CivilTextRoundTrip(d: Date)
    requires IsDate(d)
    ensures |PrintCivil(d)| >= 10 && (FourDigitYear(d.year) ==> |PrintCivil(d)| == 10)
    ensures ParseCivil(PrintCivil(d)) == if FourDigitYear(d.year) then Some(d) else None
  {
    YearText(d.year);
    TwoDigits(d.month);
    TwoDigits(d.day);
    ParseJoined(PrintYear(d.year), Padded(d.month, 2), Padded(d.day, 2));
  }

  /** Printing and parsing a date is the identity exactly for years 0 to 9999; the
      text of any other year is refused. */
  lemma {:induction false} DateTextRoundTrip(days: int)
    ensures ParseDate(PrintDate(days)) == if FourDigitYear(CivilFromDays(days).year) then Some(days) else None
  {
    DaysRoundTrip(days);
    CivilTextRoundTrip(CivilFromDays(days));
  }

  /** The parser checks days against 31 only: a day beyond the end of its month
      counts on from the first of it. */
  lemma {:induction false} AcceptedDate(s: string)
    requires ParseDate(s).Some?
    ensures var year, month, day := NumberOf(s[..4]), NumberOf(s[5..7]), NumberOf(s[8..10]);
            && 1 <= month <= 12 && 1 <= day <= 31
            && ParseDate(s).value == DaysFromCivil(Date(year, month, 1)) + day - 1
            && (CivilFromDays(ParseDate(s).value) == Date(year, month, day) <==> IsDate(Date(year, month, day)))
  {
    var d := Date(NumberOf(s[..4]), NumberOf(s[5..7]), NumberOf(s[8..10]));
    assert PartsOfDate(d) == PartsOfDate(Date(d.year, d.month, 1)).(doy := DayOfYear(d.month, 1) + d.day - 1);
    if IsDate(d) {
      CivilRoundTrip(d);
    }
    DaysRoundTrip(ParseDate(s).value);
  }

  // ---- Timestamps ----

  /** Whole days, rounded down also before 1970. */
  function WholeDays(seconds: int): int {
    if seconds >= 0 then seconds / 86400 else -((-seconds + 86399) / 86400)
  }

  lemma {:induction false} WholeDaysIsFloor(seconds: int)
    ensures WholeDays(seconds) == seconds / 86400
    ensures 0 <= seconds - WholeDays(seconds) * 86400 < 86400
  {
  }

  function PrintTime(rem: int): string
    requires 0 <= rem < 86400
  {
    Padded(rem / 3600, 2) + ":" + Padded((rem % 3600) / 60, 2) + ":" + Padded(rem % 60, 2)
  }

  /** The low 32 bits as a signed number. */
  function Wrap32(x: int): (w: int)
    ensures IsS32(w)
    ensures IsS32(x) <==> w == x
  {
    (x + 0x8000_0000) % 0x1_0000_0000 - 0x8000_0000
  }

  /** Every signed 64-bit intermediate value of the split into days and seconds. */
  predicate SplitFits(seconds: int) {
    && IsS64(seconds) && (seconds < 0 ==> IsS64(-seconds) && IsS64(-seconds + 86399))
    && IsS64(WholeDays(seconds) * 86400) && IsS64(seconds - WholeDays(seconds) * 86400)
  }

  predicate IsS64(x: int) {
    -0x8000_0000_0000_0000 <= x <= 0x7FFF_FFFF_FFFF_FFFF
  }

  /** No 64-bit value overflows, but for the 86400 smallest. */
  lemma {:induction false} SplitFitsIff(seconds: int)
    requires IsS64(seconds)
    ensures SplitFits(seconds) <==> seconds >= -0x8000_0000_0000_0000 + 86400
  {
    WholeDaysIsFloor(seconds);
  }

  /** A date and the second of that day. */
  datatype Moment = Moment(date: Date, second: int)

  predicate IsMoment(m: Moment) {
    IsDate(m.date) && 0 <= m.second < 86400
  }

  function PrintMoment(m: Moment): string
    requires IsMoment(m)
  {
    PrintCivil(m.date) + " " + PrintTime(m.second)
  }

  /** The day number is cut to 32 bits before it becomes a date. */
  function MomentOf(seconds: int): (m: Moment)
    ensures IsMoment(m)
  {
    WholeDaysIsFloor(seconds);
    DaysRoundTrip(Wrap32(WholeDays(seconds)));
    Moment(CivilFromDays(Wrap32(WholeDays(seconds))), seconds - WholeDays(seconds) * 86400)
  }

  function PrintTimestamp(seconds: int): string {
    PrintMoment(MomentOf(seconds))
  }

  /** The time of day, from hh:mm:ss. */
  function ParseTime(s: string): Option<int>
    requires |s| == 8
  {
    if s[2] != ':' || s[5] != ':' then None
    else if !IsInteger(s[..2]) || !IsInteger(s[3..5]) || !IsInteger(s[6..8]) then None
    else
      var hour, minute, second := NumberOf(s[..2]), NumberOf(s[3..5]), NumberOf(s[6..8]);
      if hour > 23 || minute > 59 || second > 59 then None
      else Some(hour * 3600 + minute * 60 + second)
  }

  /** A date alone is midnight. */
  function ParseMoment(s: string): Option<Moment> {
    if |s| == 10 then
      (if ParseCivil(s).None? then None else Some(Moment(ParseCivil(s).value, 0)))
    else if |s| != 19 || (s[10] != ' ' && s[10] != 'T') then None
    else if ParseCivil(s[..10]).None? || ParseTime(s[11..]).None? then None
    else Some(Moment(ParseCivil(s[..10]).value, ParseTime(s[11..]).value))
  }

  function SecondsOf(m: Option<Moment>): Option<int> {
    if m.None? then None else Some(DaysFromCivil(m.value.date) * 86400 + m.value.second)
  }

  function ParseTimestamp(s: string): Option<int> {
    SecondsOf(ParseMoment(s))
  }

  lemma {:induction false} TimeRoundTrip(rem: int)
    requires 0 <= rem < 86400
    ensures |PrintTime(rem)| == 8 && ParseTime(PrintTime(rem)) == Some(rem)
  {
    var hour, minute, second := rem / 3600, (rem % 3600) / 60, rem % 60;
    SplitTime(rem);
    TwoDigits(hour);
    TwoDigits(minute);
    TwoDigits(second);
    ParseJoinedTime(Padded(hour, 2), Padded(minute, 2), Padded(second, 2));
  }

  lemma {:induction false} SplitTime(rem: int)
    requires 0 <= rem < 86400
    ensures rem / 3600 <= 23 && (rem % 3600) / 60 <= 59 && rem % 60 <= 59
    ensures rem == rem / 3600 * 3600 + (rem % 3600) / 60 * 60 + rem % 60
    ensures (rem % 3600) / 60 == rem / 60 % 60
  {
  }

  lemma {:induction false} ParseJoinedTime(hour: string, minute: string, second: string)
    requires IsInteger(hour) && |hour| == 2 && IsInteger(minute) && |minute| == 2 && IsInteger(second) && |second| == 2
    requires NumberOf(hour) <= 23 && NumberOf(minute) <= 59 && NumberOf(second) <= 59
    ensures ParseTime(hour + ":" + minute + ":" + second) ==
            Some(NumberOf(hour) * 3600 + NumberOf(minute) * 60 + NumberOf(second))
  {
    var s := hour + ":" + minute + ":" + second;
    assert s[..2] == hour && s[3..5] == minute && s[6..8] == second;
  }

  lemma {:induction false} ParseDateAndTime(date: string, time: string)
    requires |date| >= 10 && |time| == 8 && ParseTime(time).Some?
    ensures ParseMoment(date + " " + time) ==
            if |date| == 10 && ParseCivil(date).Some? then Some(Moment(ParseCivil(date).value, ParseTime(time).value)) else None
  {
    var s := date + " " + time;
    if |date| == 10 {
      assert s[..10] == date && s[11..] == time;
    }
  }

  /** Where the shift of a day number overflows, the text is refused whether the
      shifted value wraps around or not. */
  lemma {:induction false} OverflowIsRefused(day: int)
    requires IsS32(day) && !CivilFits(day)
    ensures Kept(Moment(CivilFromDays(day), 0)).None? && Kept(Moment(CivilFromDays(day - 0x1_0000_0000), 0)).None?
  {
    CivilFitsIff(day);
    FourDigitDays(day);
    FourDigitDays(day - 0x1_0000_0000);
  }

  lemma {:induction false} MomentTextRoundTrip(m: Moment)
    requires IsMoment(m)
    ensures ParseMoment(PrintMoment(m)) == Kept(m)
  {
    CivilTextRoundTrip(m.date);
    TimeRoundTrip(m.second);
    ParseDateAndTime(PrintCivil(m.date), PrintTime(m.second));
  }

  function Kept(m: Moment): Option<Moment> {
    if FourDigitYear(m.date.year) then Some(m) else None
  }

  /** The days of the years 0 to 9999. */
  const FIRST_DAY: int := -719528
  const LAST_DAY: int := 2932896

  lemma {:induction false} FirstDayIs()
    ensures DaysFromCivil(Date(0, 1, 1)) == FIRST_DAY && DaysFromCivil(Date(9999, 12, 31)) == LAST_DAY
  {
    assert PartsOfDate(Date(0, 1, 1)) == Parts(-1, 399, 306) by {
      assert EraOf(-1) == -1 && DayOfYear(1, 1) == 306;
    }
    assert PartsOfDate(Date(9999, 12, 31)) == Parts(24, 399, 305) by {
      assert EraOf(9999) == 24 && DayOfYear(12, 31) == 305;
    }
    assert YearStart(399) == 145731;
  }

  lemma {:induction false} FourDigitDays(days: int)
    ensures FourDigitYear(CivilFromDays(days).year) <==> FIRST_DAY <= days <= LAST_DAY
  {
    DaysRoundTrip(days);
    FirstDayIs();
    FourDigitIff(CivilFromDays(days));
  }

  lemma {:induction false} FourDigitIff(d: Date)
    requires IsDate(d)
    ensures FourDigitYear(d.year) <==> DaysFromCivil(Date(0, 1, 1)) <= DaysFromCivil(d) <= DaysFromCivil(Date(9999, 12, 31))
  {
    DatesBetween(d, Date(0, 1, 1), Date(9999, 12, 31));
  }

  /** What is left of a timestamp: its second of the day, and the day that the cut to
      32 bits leaves, if its year is 0 to 9999. */
  function Reread(seconds: int): Option<int> {
    var day := Wrap32(WholeDays(seconds));
    if FIRST_DAY <= day <= LAST_DAY then Some(day * 86400 + (seconds - WholeDays(seconds) * 86400)) else None
  }

  lemma {:induction false} KeptSeconds(seconds: int)
    ensures SecondsOf(Kept(MomentOf(seconds))) == Reread(seconds)
  {
    var day := Wrap32(WholeDays(seconds));
    DaysRoundTrip(day);
    FourDigitDays(day);
  }

  /** Printing and parsing a timestamp, before 1970 as well: the day that comes back
      is the one that is left after the cut to 32 bits, if its year is 0 to 9999. */
  lemma {:induction false} TimestampTextRoundTrip(seconds: int)
    ensures ParseTimestamp(PrintTimestamp(seconds)) == Reread(seconds)
  {
    MomentTextRoundTrip(MomentOf(seconds));
    KeptSeconds(seconds);
  }

  lemma {:induction false} RereadIs(seconds: int)
    ensures var day := Wrap32(seconds / 86400);
            Reread(seconds) == if FIRST_DAY <= day <= LAST_DAY then Some(day * 86400 + seconds % 86400) else None
    ensures Reread(seconds) == Some(seconds) <==> FIRST_DAY <= seconds / 86400 <= LAST_DAY
    ensures Reread(seconds).Some? && Reread(seconds).value != seconds <==>
            !IsS32(seconds / 86400) && FIRST_DAY <= Wrap32(seconds / 86400) <= LAST_DAY
  {
    WholeDaysIsFloor(seconds);
  }

  /** A timestamp is kept exactly when its own year is 0 to 9999. */
  lemma {:induction false} TimestampKeptIff(seconds: int)
    ensures ParseTimestamp(PrintTimestamp(seconds)) == Some(seconds) <==> FourDigitYear(CivilFromDays(seconds / 86400).year)
  {
    TimestampTextRoundTrip(seconds);
    FourDigitDays(seconds / 86400);
    RereadIs(seconds);
  }

  /** A timestamp comes back as another one exactly when its day number does not fit
      32 bits and the cut leaves a day of the years 0 to 9999. */
  lemma {:induction false} TimestampChangedIff(seconds: int)
    ensures var parsed := ParseTimestamp(PrintTimestamp(seconds));
            parsed.Some? && parsed.value != seconds <==>
            !IsS32(seconds / 86400) && FIRST_DAY <= Wrap32(seconds / 86400) <= LAST_DAY
  {
    TimestampTextRoundTrip(seconds);
    RereadIs(seconds);
  }

  lemma {:induction false} ChangedSeconds(seconds: int)
    requires seconds == 371085174374400
    ensures IsS64(seconds) && Reread(seconds) == Some(0)
  {
    RereadIs(seconds);
    assert seconds / 86400 == 0x1_0000_0000 && seconds % 86400 == 0;
  }

  /** The moment 2^32 days after the start of 1970 comes back as the start of 1970. */
  lemma {:induction false} ChangedTimestamp() returns (seconds: int)
    ensures seconds == 371085174374400 && IsS64(seconds)
    ensures ParseTimestamp(PrintTimestamp(seconds)) == Some(0)
  {
    seconds :| seconds == 371085174374400;
    ChangedSeconds(seconds);
    TimestampTextRoundTrip(seconds);
  }

  // ---- Which texts are accepted ----

  function DigitAt(s: string, i: nat): int
    requires i < |s|
  {
    s[i] as int - '0' as int
  }

  predicate TwoAt(s: string, i: nat, value: int) {
    i + 2 <= |s| && '0' <= s[i] <= '9' && '0' <= s[i + 1] <= '9' && value == 10 * DigitAt(s, i) + DigitAt(s, i + 1)
  }

  predicate FourAt(s: string, i: nat, value: int) {
    && i + 4 <= |s| && (forall k :: i <= k < i + 4 ==> '0' <= s[k] <= '9')
    && value == 1000 * DigitAt(s, i) + 100 * DigitAt(s, i + 1) + 10 * DigitAt(s, i + 2) + DigitAt(s, i + 3)
  }

  /** yyyy-mm-dd, with a day up to 31. */
  predicate NamesDate(s: string, year: int, month: int, day: int) {
    && |s| == 10 && FourAt(s, 0, year) && s[4] == '-' && TwoAt(s, 5, month) && s[7] == '-' && TwoAt(s, 8, day)
    && 1 <= month <= 12 && 1 <= day <= 31
  }

  /** hh:mm:ss of one day. */
  predicate NamesTime(s: string, hour: int, minute: int, second: int) {
    && |s| == 8 && TwoAt(s, 0, hour) && s[2] == ':' && TwoAt(s, 3, minute) && s[5] == ':' && TwoAt(s, 6, second)
    && hour <= 23 && minute <= 59 && second <= 59
  }

  lemma {:induction false} TwoIff(s: string, value: int)
    requires |s| == 2
    ensures TwoAt(s, 0, value) <==> IsInteger(s) && NumberOf(s) == value
  {
    if AllDigits(s) {
      assert s[..1] == [s[0]] && s[..1][..0] == [];
      assert NumberOf(s[..1]) == DigitValue(s[0]);
    }
    if TwoAt(s, 0, value) {
      assert IsDigit(s[0]) && IsDigit(s[1]);
    }
  }

  lemma {:induction false} FourIff(s: string, value: int)
    requires |s| == 4
    ensures FourAt(s, 0, value) <==> IsInteger(s) && NumberOf(s) == value
  {
    if AllDigits(s) {
      assert s[..3][..2] == s[..2] && s[..2][..1] == [s[0]] && [s[0]][..0] == [];
      assert NumberOf([s[0]]) == DigitValue(s[0]);
      assert NumberOf(s[..2]) == 10 * DigitValue(s[0]) + DigitValue(s[1]);
      assert NumberOf(s[..3]) == 10 * NumberOf(s[..2]) + DigitValue(s[2]);
    }
    if FourAt(s, 0, value) {
      assert AllDigits(s);
    }
  }

  lemma {:induction false} TwoShifts(s: string, i: nat)
    requires i + 2 <= |s|
    ensures forall value :: TwoAt(s[i..i + 2], 0, value) <==> TwoAt(s, i, value)
  {
  }

  lemma {:induction false} CivilIff(s: string, year: int, month: int, day: int)
    ensures (year >= 0 && month >= 0 && day >= 0 && ParseCivil(s) == Some(Date(year, month, day))) <==> NamesDate(s, year, month, day)
  {
    if |s| == 10 {
      FourIff(s[..4], year);
      TwoIff(s[5..7], month);
      TwoIff(s[8..10], day);
      TwoShifts(s, 5);
      TwoShifts(s, 8);
      assert FourAt(s[..4], 0, year) <==> FourAt(s, 0, year) by {
        assert forall k :: 0 <= k < 4 ==> s[..4][k] == s[k];
      }
    }
  }

  /** The day that a text names: that many days into its month. */
  ghost predicate NamesDay(s: string, days: int) {
    exists year, month: nat, day :: NamesDate(s, year, month, day) && days == DaysFromCivil(Date(year, month, 1)) + day - 1
  }

  /** A text is a date if and only if it is written so. */
  lemma {:induction false} DateIff(s: string, days: int)
    ensures ParseDate(s) == Some(days) <==> NamesDay(s, days)
  {
    if ParseDate(s) == Some(days) {
      var d := ParseCivil(s).value;
      CivilIff(s, d.year, d.month, d.day);
      DayInMonth(d);
    }
    if NamesDay(s, days) {
      var year, month: nat, day :| NamesDate(s, year, month, day) && days == DaysFromCivil(Date(year, month, 1)) + day - 1;
      CivilIff(s, year, month, day);
      DayInMonth(Date(year, month, day));
    }
  }

  lemma {:induction false} DayInMonth(d: Date)
    requires 1 <= d.month <= 12 && d.day >= 1
    ensures DaysFromCivil(d) == DaysFromCivil(Date(d.year, d.month, 1)) + d.day - 1
  {
    assert PartsOfDate(d) == PartsOfDate(Date(d.year, d.month, 1)).(doy := DayOfYear(d.month, 1) + d.day - 1);
  }

  ghost predicate NamesClock(s: string, seconds: int) {
    exists hour, minute, second :: NamesTime(s, hour, minute, second) && seconds == 3600 * hour + 60 * minute + second
  }

  lemma {:induction false} TimeIff(s: string, seconds: int)
    requires |s| == 8
    ensures ParseTime(s) == Some(seconds) <==> NamesClock(s, seconds)
  {
    forall value
      ensures TwoAt(s, 0, value) <==> IsInteger(s[..2]) && NumberOf(s[..2]) == value
      ensures TwoAt(s, 3, value) <==> IsInteger(s[3..5]) && NumberOf(s[3..5]) == value
      ensures TwoAt(s, 6, value) <==> IsInteger(s[6..8]) && NumberOf(s[6..8]) == value
    {
      TwoIff(s[..2], value);
      TwoIff(s[3..5], value);
      TwoIff(s[6..8], value);
      TwoShifts(s, 0);
      TwoShifts(s, 3);
      TwoShifts(s, 6);
    }
    if ParseTime(s) == Some(seconds) {
      assert NamesTime(s, NumberOf(s[..2]), NumberOf(s[3..5]), NumberOf(s[6..8]));
    }
  }

  /** The second that a text with a date, alone or with a time behind a space or a T,
      stands for. */
  ghost predicate NamesSecond(s: string, seconds: int) {
    || (exists days :: NamesDay(s, days) && seconds == days * 86400)
    || (|s| == 19 && (s[10] == ' ' || s[10] == 'T')
        && exists days, clock :: NamesDay(s[..10], days) && NamesClock(s[11..], clock) && seconds == days * 86400 + clock)
  }

  /** A text is a timestamp if and only if it is written so. */
  lemma {:induction false} TimestampIff(s: string, seconds: int)
    ensures ParseTimestamp(s) == Some(seconds) <==> NamesSecond(s, seconds)
  {
    hide NamesDay, NamesClock, ParseCivil, ParseTime;
    if |s| == 10 {
      MidnightIff(s, seconds);
    } else {
      if days :| NamesDay(s, days) {
        LengthOfDay(s, days);
      }
      if |s| == 19 {
        LongTimestampIff(s, seconds);
      }
    }
  }

  lemma {:induction false} LengthOfDay(s: string, days: int)
    requires NamesDay(s, days)
    ensures |s| == 10
  {
  }

  lemma {:induction false} MidnightIff(s: string, seconds: int)
    requires |s| == 10
    ensures ParseTimestamp(s) == Some(seconds) <==> exists days :: NamesDay(s, days) && seconds == days * 86400
  {
    hide NamesDay, ParseCivil;
    if ParseTimestamp(s) == Some(seconds) {
      DateIff(s, DaysFromCivil(ParseCivil(s).value));
    }
    if days :| NamesDay(s, days) && seconds == days * 86400 {
      DateIff(s, days);
    }
  }

  lemma {:induction false} LongTimestampIff(s: string, seconds: int)
    requires |s| == 19
    ensures ParseTimestamp(s) == Some(seconds) <==>
            && (s[10] == ' ' || s[10] == 'T')
            && exists days, clock :: NamesDay(s[..10], days) && NamesClock(s[11..], clock) && seconds == days * 86400 + clock
  {
    hide NamesDay, NamesClock, ParseCivil, ParseTime;
    if ParseTimestamp(s) == Some(seconds) {
      DateIff(s[..10], DaysFromCivil(ParseCivil(s[..10]).value));
      TimeIff(s[11..], ParseTime(s[11..]).value);
    }
    if days, clock :| NamesDay(s[..10], days) && NamesClock(s[11..], clock) && seconds == days * 86400 + clock {
      DateIff(s[..10], days);
      TimeIff(s[11..], clock);
    }
  }

  // ---- What is printed ----

  /** A year is printed with its sign and four characters or more, without needless zeros. */
  lemma {:induction false} PrintedYear(year: int)
    ensures var y := PrintYear(year);
            && |y| >= 4
            && (if year >= 0 then IsInteger(y) && NumberOf(y) == year && (|y| > 4 ==> y[0] != '0')
                else y[0] == '-' && IsInteger(y[1..]) && NumberOf(y[1..]) == -year && (|y| > 4 ==> y[1] != '0'))
  {
    if year >= 0 {
      PaddedForm(year, 4);
    } else {
      PaddedForm(-year, 3);
      assert PrintYear(year)[1..] == Padded(-year, 3);
    }
  }

  lemma {:induction false} PaddedForm(n: nat, width: nat)
    requires width > 0
    ensures var y := Padded(n, width);
            IsInteger(y) && NumberOf(y) == n && |y| >= width && (|y| > width ==> y[0] != '0')
  {
    PaddedRoundTrip(n, width);
    if n >= Pow10(width) {
      PrintIsLong(n, width);
      PrintHasNoLead(n);
    }
  }

  /** A timestamp of the years 0 to 9999 is printed as its date, a space and its time. */
  lemma {:induction false} PrintedTimestamp(seconds: int)
    requires FourDigitYear(MomentOf(seconds).date.year)
    ensures var t, d, rem := PrintTimestamp(seconds), MomentOf(seconds).date, MomentOf(seconds).second;
            && |t| == 19 && NamesDate(t[..10], d.year, d.month, d.day) && t[10] == ' '
            && NamesTime(t[11..], rem / 3600, rem / 60 % 60, rem % 60)
  {
    var d, rem := MomentOf(seconds).date, MomentOf(seconds).second;
    CivilTextRoundTrip(d);
    CivilIff(PrintCivil(d), d.year, d.month, d.day);
    var t := PrintTimestamp(seconds);
    assert t[..10] == PrintCivil(d) && t[11..] == PrintTime(rem);
    PrintedTime(rem);
  }

  lemma {:induction false} PrintedTime(rem: int)
    requires 0 <= rem < 86400
    ensures NamesTime(PrintTime(rem), rem / 3600, rem / 60 % 60, rem % 60)
  {
    SplitTime(rem);
    TwoDigits(rem / 3600);
    TwoDigits((rem % 3600) / 60);
    TwoDigits(rem % 60);
    JoinedNamesTime(Padded(rem / 3600, 2), Padded((rem % 3600) / 60, 2), Padded(rem % 60, 2));
  }

  lemma {:induction false} TimeParts(hour: string, minute: string, second: string)
    requires |hour| == 2 && |minute| == 2 && |second| == 2
    ensures var s := hour + ":" + minute + ":" + second;
            |s| == 8 && s[2] == ':' && s[5] == ':' && s[0..2] == hour && s[3..5] == minute && s[6..8] == second
  {
    var a := hour + ":";
    var b := a + minute;
    var c := b + ":";
    var s := c + second;
    assert b[3..5] == minute && s[..6] == c && c[..5] == b && b[..3] == a;
    assert s[3..5] == s[..6][3..5] == c[..5][3..5];
    assert s[0..2] == hour;
  }

  lemma {:induction false} JoinedNamesTime(hour: string, minute: string, second: string)
    requires IsInteger(hour) && |hour| == 2 && IsInteger(minute) && |minute| == 2 && IsInteger(second) && |second| == 2
    requires NumberOf(hour) <= 23 && NumberOf(minute) <= 59 && NumberOf(second) <= 59
    ensures NamesTime(hour + ":" + minute + ":" + second, NumberOf(hour), NumberOf(minute), NumberOf(second))
  {
    hide NumberOf;
    var s := hour + ":" + minute + ":" + second;
    TimeParts(hour, minute, second);
    TwoIff(hour, NumberOf(hour));
    TwoIff(minute, NumberOf(minute));
    TwoIff(second, NumberOf(second));
    TwoShifts(s, 0);
    TwoShifts(s, 3);
    TwoShifts(s, 6);
  }
}
