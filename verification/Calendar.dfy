/** Dates as day numbers since 1970-01-01 and timestamps as seconds, with their
    ISO 8601 text. */
module Calendar {
  datatype Option<+T> = None | Some(value: T)

  datatype Date = Date(year: int, month: nat, day: nat)

  // ---- The Gregorian calendar ----

  predicate IsLeap(year: int) {
    year % 4 == 0 && (year % 100 != 0 || year % 400 == 0)
  }

  function DaysInMonth(year: int, month: nat): nat {
    if month == 2 then (if IsLeap(year) then 29 else 28)
    else if month == 4 || month == 6 || month == 9 || month == 11 then 30
    else 31
  }

  predicate IsDate(d: Date) {
    1 <= d.month <= 12 && 1 <= d.day <= DaysInMonth(d.year, d.month)
  }

  /** The day after. */
  function NextDay(d: Date): Date {
    if d.day < DaysInMonth(d.year, d.month) then d.(day := d.day + 1)
    else if d.month < 12 then Date(d.year, d.month + 1, 1)
    else Date(d.year + 1, 1, 1)
  }

  predicate Earlier(a: Date, b: Date) {
    || a.year < b.year
    || (a.year == b.year && a.month < b.month)
    || (a.year == b.year && a.month == b.month && a.day < b.day)
  }

  // ---- Conversion, with division that truncates toward zero ----

  function TruncatedDiv(a: int, b: int): int
    requires b > 0
  {
    if a >= 0 then a / b else -((-a) / b)
  }

  /** Years that start in March, in eras of 400. */
  function EraOf(y: int): int {
    TruncatedDiv(if y >= 0 then y else y - 399, 400)
  }

  function MarchMonth(month: nat): int {
    month + (if month > 2 then -3 else 9)
  }

  function DayOfYear(month: nat, day: nat): int {
    (153 * MarchMonth(month) + 2) / 5 + day - 1
  }

  function YearStart(yoe: int): int {
    yoe * 365 + yoe / 4 - yoe / 100
  }

  /** A day as its era, the year of the era and the day of that year. */
  datatype Parts = Parts(era: int, yoe: int, doy: int)

  function PartsOfDate(d: Date): Parts {
    var y := d.year - (if d.month <= 2 then 1 else 0);
    Parts(EraOf(y), y - EraOf(y) * 400, DayOfYear(d.month, d.day))
  }

  function DaysOfParts(p: Parts): int {
    p.era * 146097 + (YearStart(p.yoe) + p.doy) - 719468
  }

  function DaysFromCivil(d: Date): int {
    DaysOfParts(PartsOfDate(d))
  }

  function YearOfEra(doe: int): int {
    (doe - doe / 1460 + doe / 36524 - doe / 146096) / 365
  }

  function PartsOfDays(days: int): Parts {
    var z := days + 719468;
    var era := TruncatedDiv(if z >= 0 then z else z - 146096, 146097);
    var doe := z - era * 146097;
    Parts(era, YearOfEra(doe), doe - YearStart(YearOfEra(doe)))
  }

  function DateOfParts(p: Parts): Date {
    var mp := (5 * p.doy + 2) / 153;
    var day := p.doy - (153 * mp + 2) / 5 + 1;
    var month := mp + (if mp < 10 then 3 else -9);
    var y := p.yoe + p.era * 400 + (if month <= 2 then 1 else 0);
    Date(y, if month >= 0 then month else 0, if day >= 0 then day else 0)
  }

  function CivilFromDays(days: int): Date {
    DateOfParts(PartsOfDays(days))
  }

  // ---- Eras and years ----

  lemma {:induction false} EraIsFloor(y: int)
    ensures EraOf(y) == y / 400 && 0 <= y - EraOf(y) * 400 <= 399
  {
  }

  lemma {:induction false} EraOfDays(z: int)
    ensures var era := TruncatedDiv(if z >= 0 then z else z - 146096, 146097);
            era == z / 146097 && 0 <= z - era * 146097 <= 146096
  {
  }

  /** A year of the era that starts in March, with its leap day at the end. */
  predicate LongYear(yoe: int) {
    IsLeap(yoe + 1)
  }

  function LastDay(yoe: int): int {
    if LongYear(yoe) then 365 else 364
  }

  lemma {:induction false} YearStartSplit(yoe: int, c: int, q: int, r: int)
    requires 0 <= c <= 3 && 0 <= q <= 24 && 0 <= r <= 3 && yoe == 100 * c + 4 * q + r
    ensures YearStart(yoe) == 36524 * c + 1461 * q + 365 * r
    ensures LongYear(yoe) <==> r == 3 && (q != 24 || c == 3)
  {
    assert yoe / 100 == c && yoe / 4 == 25 * c + q;
  }

  lemma {:induction false} QuotientIs(x: int, n: int, q: int)
    requires n > 0 && q * n <= x < q * n + n
    ensures x / n == q
  {
    var k := x / n - q;
    assert k * n == (x / n) * n - q * n;
    assert k >= 1 ==> k * n >= n;
    assert k <= -1 ==> k * n <= -n;
  }

  /** The corrections for leap years, on a day given by its century c, its four-year
      cycle q, the year r of the cycle and the day of that year. */
  lemma {:induction false} Corrections(doe: int, c: int, q: int, r: int, doy: int)
    requires 0 <= c <= 3 && 0 <= q <= 24 && 0 <= r <= 3 && 0 <= doy <= 365
    requires doy == 365 ==> r == 3 && (q != 24 || c == 3)
    requires doe == 36524 * c + 1461 * q + 365 * r + doy
    ensures var over := if 24 * c + q + 365 * r + doy >= 1460 then 1 else 0;
            doe / 1460 == 25 * c + q + over && doe / 36524 - doe / 146096 == c && 0 <= doy - over < 365
  {
    var over := if 24 * c + q + 365 * r + doy >= 1460 then 1 else 0;
    QuotientIs(doe, 1460, 25 * c + q + over);
    var last := if doe == 146096 then 1 else 0;
    QuotientIs(doe, 36524, c + last);
    QuotientIs(doe, 146096, last);
  }

  /** The formula for the year finds it, for every day of it. */
  lemma {:induction false} YearOfEraIs(yoe: int, doy: int)
    requires 0 <= yoe <= 399 && 0 <= doy <= LastDay(yoe)
    ensures 0 <= YearStart(yoe) + doy <= 146096
    ensures YearOfEra(YearStart(yoe) + doy) == yoe
  {
    var c, q, r := yoe / 100, (yoe % 100) / 4, yoe % 4;
    YearStartSplit(yoe, c, q, r);
    var doe := YearStart(yoe) + doy;
    Corrections(doe, c, q, r, doy);
    QuotientIs(doe - doe / 1460 + doe / 36524 - doe / 146096, 365, yoe);
  }

  /** Where a year ends the next one starts. */
  lemma {:induction false} YearEnds(yoe: int)
    requires 0 <= yoe < 399
    ensures YearStart(yoe) + LastDay(yoe) + 1 == YearStart(yoe + 1)
  {
    var c, q, r := yoe / 100, (yoe % 100) / 4, yoe % 4;
    YearStartSplit(yoe, c, q, r);
    if r < 3 {
      YearStartSplit(yoe + 1, c, q, r + 1);
    } else if q < 24 {
      YearStartSplit(yoe + 1, c, q + 1, 0);
    } else {
      YearStartSplit(yoe + 1, c + 1, 0, 0);
    }
  }

  lemma {:induction false} EraEnds()
    ensures YearStart(399) + LastDay(399) == 146096
  {
    YearStartSplit(399, 3, 24, 3);
  }

  lemma {:induction false} FindYear(doe: int, yoe: int) returns (found: int)
    requires 0 <= yoe <= 399 && YearStart(yoe) <= doe <= 146096
    ensures yoe <= found <= 399 && YearStart(found) <= doe <= YearStart(found) + LastDay(found)
    decreases 399 - yoe
  {
    if doe <= YearStart(yoe) + LastDay(yoe) {
      found := yoe;
    } else if yoe < 399 {
      YearEnds(yoe);
      found := FindYear(doe, yoe + 1);
    } else {
      EraEnds();
      assert false;
    }
  }

  /** Every day of an era lies in the year the formula finds. */
  lemma {:induction false} YearOfEraFits(doe: int)
    requires 0 <= doe <= 146096
    ensures var yoe := YearOfEra(doe);
            0 <= yoe <= 399 && 0 <= doe - YearStart(yoe) <= LastDay(yoe)
  {
    var yoe := FindYear(doe, 0);
    YearOfEraIs(yoe, doe - YearStart(yoe));
  }

  // ---- Months ----

  lemma {:induction false} MonthRoundTrip(month: nat, day: nat)
    requires 1 <= month <= 12 && 1 <= day <= 31
    requires (month == 4 || month == 6 || month == 9 || month == 11 ==> day <= 30) && (month == 2 ==> day <= 29)
    ensures var doy := DayOfYear(month, day);
            var mp := (5 * doy + 2) / 153;
            && 0 <= doy <= 365 && (doy == 365 <==> month == 2 && day == 29)
            && mp == MarchMonth(month) && doy - (153 * mp + 2) / 5 + 1 == day
  {
  }

  lemma {:induction false} MonthOfDay(doy: int)
    requires 0 <= doy <= 365
    ensures var mp := (5 * doy + 2) / 153;
            var day := doy - (153 * mp + 2) / 5 + 1;
            var month := mp + (if mp < 10 then 3 else -9);
            && 1 <= month <= 12 && 1 <= day <= 31
            && (month == 4 || month == 6 || month == 9 || month == 11 ==> day <= 30)
            && (month == 2 ==> day <= 29) && (month == 2 && day == 29 <==> doy == 365)
            && MarchMonth(month) == mp
  {
  }

  lemma {:induction false} SameRest(x: int, n: int, k: int)
    requires n > 0
    ensures (k * n + x) % n == x % n
  {
    QuotientIs(k * n + x, n, k + x / n);
    assert (k + x / n) * n == k * n + (x / n) * n;
  }

  /** Leap years repeat every 400 years. */
  lemma {:induction false} SameLeap(era: int, year: int)
    ensures IsLeap(era * 400 + year) <==> IsLeap(year)
  {
    SameRest(year, 4, era * 100);
    SameRest(year, 100, era * 4);
    SameRest(year, 400, era);
  }

  lemma {:induction false} LeapOfEra(y: int)
    ensures IsLeap(y + 1) <==> LongYear(y - EraOf(y) * 400)
  {
    SameLeap(EraOf(y), y - EraOf(y) * 400 + 1);
  }

  // ---- Round trips ----

  predicate ArePossible(p: Parts) {
    0 <= p.yoe <= 399 && 0 <= p.doy <= LastDay(p.yoe)
  }

  lemma {:induction false} EraUnique(era: int, doe: int)
    requires 0 <= doe <= 146096
    ensures (era * 146097 + doe) / 146097 == era
  {
  }

  lemma {:induction false} PartsRoundTrip(p: Parts)
    requires ArePossible(p)
    ensures PartsOfDays(DaysOfParts(p)) == p
  {
    var doe := YearStart(p.yoe) + p.doy;
    YearOfEraIs(p.yoe, p.doy);
    EraOfDays(p.era * 146097 + doe);
    EraUnique(p.era, doe);
  }

  lemma {:induction false} DaysPartsRoundTrip(days: int)
    ensures ArePossible(PartsOfDays(days)) && DaysOfParts(PartsOfDays(days)) == days
  {
    var z := days + 719468;
    EraOfDays(z);
    YearOfEraFits(z - (z / 146097) * 146097);
  }

  lemma {:induction false} DateRoundTrip(d: Date)
    requires IsDate(d)
    ensures ArePossible(PartsOfDate(d)) && DateOfParts(PartsOfDate(d)) == d
  {
    var y := d.year - (if d.month <= 2 then 1 else 0);
    EraIsFloor(y);
    MonthRoundTrip(d.month, d.day);
    LeapOfEra(y);
  }

  lemma {:induction false} DatePartsRoundTrip(p: Parts)
    requires ArePossible(p)
    ensures IsDate(DateOfParts(p)) && PartsOfDate(DateOfParts(p)) == p
  {
    MonthOfDay(p.doy);
    var y := p.yoe + p.era * 400;
    EraIsFloor(y);
    LeapOfEra(y);
  }

  /** A date, its day number, and the date again. */
  lemma {:induction false} CivilRoundTrip(d: Date)
    requires IsDate(d)
    ensures CivilFromDays(DaysFromCivil(d)) == d
  {
    DateRoundTrip(d);
    PartsRoundTrip(PartsOfDate(d));
  }

  /** A day number, its date, and the number again. */
  lemma {:induction false} DaysRoundTrip(days: int)
    ensures IsDate(CivilFromDays(days)) && DaysFromCivil(CivilFromDays(days)) == days
  {
    DaysPartsRoundTrip(days);
    DatePartsRoundTrip(PartsOfDays(days));
  }

  /** The day numbers count the days of the calendar, from 1970-01-01 on. */
  lemma {:induction false} NextDayCounts(d: Date)
    requires IsDate(d)
    ensures IsDate(NextDay(d)) && DaysFromCivil(NextDay(d)) == DaysFromCivil(d) + 1
  {
    NextDayIsDate(d);
    if d.month == 2 && d.day == DaysInMonth(d.year, 2) {
      LastOfFebruary(d);
    } else {
      SameMarchYear(d);
    }
  }

  lemma {:induction false} EpochIsZero()
    ensures DaysFromCivil(Date(1970, 1, 1)) == 0
  {
    assert EraOf(1969) == 4;
    assert DayOfYear(1, 1) == 306;
    assert YearStart(369) == 134774;
    assert PartsOfDate(Date(1970, 1, 1)) == Parts(4, 369, 306);
  }

  lemma {:induction false} NextDayIsDate(d: Date)
    requires IsDate(d)
    ensures IsDate(NextDay(d))
  {
  }

  lemma {:induction false} SameMarchYear(d: Date)
    requires IsDate(d) && !(d.month == 2 && d.day == DaysInMonth(d.year, 2))
    ensures PartsOfDate(NextDay(d)) == PartsOfDate(d).(doy := PartsOfDate(d).doy + 1)
  {
    DayAfter(d.month, d.day, DaysInMonth(d.year, d.month));
  }

  lemma {:induction false} DayAfter(month: nat, day: nat, last: nat)
    requires 1 <= month <= 12 && 1 <= day <= last
    requires month != 2 ==> last == if month == 4 || month == 6 || month == 9 || month == 11 then 30 else 31
    ensures day < last ==> DayOfYear(month, day + 1) == DayOfYear(month, day) + 1
    ensures day == last && month != 2 && month < 12 ==> DayOfYear(month + 1, 1) == DayOfYear(month, day) + 1
    ensures day == last && month == 12 ==> DayOfYear(1, 1) == DayOfYear(month, day) + 1
  {
  }

  lemma {:induction false} LastOfFebruary(d: Date)
    requires IsDate(d) && d.month == 2 && d.day == DaysInMonth(d.year, 2)
    ensures DaysFromCivil(NextDay(d)) == DaysFromCivil(d) + 1
  {
    LastPartsOf(d);
    FirstPartsOf(d.year);
    NewYear(d.year - 1);
  }

  lemma {:induction false} LastPartsOf(d: Date)
    requires IsDate(d) && d.month == 2 && d.day == DaysInMonth(d.year, 2)
    ensures PartsOfDate(d) == LastParts(d.year - 1) && NextDay(d) == Date(d.year, 3, 1)
  {
    LeapOfEra(d.year - 1);
    LastOfYear(d.day);
  }

  lemma {:induction false} FirstPartsOf(year: int)
    ensures PartsOfDate(Date(year, 3, 1)) == FirstParts(year)
  {
    LastOfYear(28);
  }

  /** The last and the first day of the year that starts in March of year y. */
  function LastParts(y: int): Parts {
    Parts(EraOf(y), y - EraOf(y) * 400, LastDay(y - EraOf(y) * 400))
  }

  function FirstParts(y: int): Parts {
    Parts(EraOf(y), y - EraOf(y) * 400, 0)
  }

  lemma {:induction false} LastOfYear(day: nat)
    requires day == 28 || day == 29
    ensures DayOfYear(2, day) == 336 + day && DayOfYear(3, 1) == 0
  {
  }

  /** From the last day of February to the first of March. */
  lemma {:induction false} NewYear(y: int)
    ensures DaysOfParts(LastParts(y)) + 1 == DaysOfParts(FirstParts(y + 1))
  {
    EraIsFloor(y);
    EraIsFloor(y + 1);
    var era := EraOf(y);
    var yoe := y - era * 400;
    if yoe < 399 {
      YearEnds(yoe);
      assert EraOf(y + 1) == era;
    } else {
      EraEnds();
      assert EraOf(y + 1) == era + 1;
      assert YearStart(0) == 0;
    }
  }

  lemma {:induction false} NextIsLater(d: Date, e: Date)
    requires IsDate(d) && IsDate(e) && Earlier(d, e)
    ensures NextDay(d) == e || Earlier(NextDay(d), e)
  {
  }

  lemma {:induction false} MonotoneFrom(d: Date, e: Date, steps: nat)
    requires IsDate(d) && IsDate(e) && Earlier(d, e) && steps >= Distance(d, e)
    ensures DaysFromCivil(d) < DaysFromCivil(e)
    decreases steps
  {
    NextDayCounts(d);
    NextIsLater(d, e);
    if NextDay(d) != e {
      DistanceShrinks(d, e);
      MonotoneFrom(NextDay(d), e, steps - 1);
    }
  }

  /** A bound on the steps from one date to a later one. */
  function Distance(d: Date, e: Date): int {
    ((e.year - d.year) * 12 + (e.month - d.month)) * 32 + (e.day - d.day)
  }

  lemma {:induction false} DistanceShrinks(d: Date, e: Date)
    requires IsDate(d) && IsDate(e) && Earlier(NextDay(d), e)
    ensures 0 < Distance(NextDay(d), e) < Distance(d, e)
  {
  }

  /** Later dates have larger numbers, and only they. */
  lemma {:induction false} StrictlyMonotone(d: Date, e: Date)
    requires IsDate(d) && IsDate(e)
    ensures Earlier(d, e) <==> DaysFromCivil(d) < DaysFromCivil(e)
  {
    if Earlier(d, e) {
      DistanceIsPositive(d, e);
      MonotoneFrom(d, e, Distance(d, e));
    } else if Earlier(e, d) {
      DistanceIsPositive(e, d);
      MonotoneFrom(e, d, Distance(e, d));
    } else {
      assert d == e;
    }
  }

  lemma {:induction false} DistanceIsPositive(d: Date, e: Date)
    requires IsDate(d) && IsDate(e) && Earlier(d, e)
    ensures Distance(d, e) > 0
  {
  }
}
