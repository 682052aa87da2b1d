/** Timestamps: the closed-form calendar conversion against walking the Gregorian
  calendar a day at a time, and the RFC 3339 text against reading it back. */
module Calendar {
  import opened Decimals
  import opened Numbers

  datatype Date = Date(year: int, month: int, day: int)

  /** Days since 1970-01-01 to a date. `/` and `%` by a positive constant are the
      source's `div_euclid` and `rem_euclid`, and agree with its `/` on the
      non-negative quantities it is applied to. */
  function CivilFromDays(days: int): Date {
    var z := days + 719468;
    DateInEra(z / 146097, z % 146097)
  }

  function DateInEra(era: int, doe: int): Date {
    var yoe := YearOfEra(doe);
    DateInYear(yoe + era * 400, doe - (365 * yoe + yoe / 4 - yoe / 100))
  }

  /** The date of a day of a year that begins in March. */
  function DateInYear(year: int, doy: int): Date {
    var mp := (5 * doy + 2) / 153;
    var day := doy - (153 * mp + 2) / 5 + 1;
    var month := if mp < 10 then mp + 3 else mp - 9;
    Date(year + (if month <= 2 then 1 else 0), month, day)
  }

  function YearOfEra(doe: int): int {
    (doe - doe / 1460 + doe / 36524 - doe / 146096) / 365
  }

  // ---- The Gregorian calendar ----

  predicate Leap(year: int) {
    year % 4 == 0 && (year % 100 != 0 || year % 400 == 0)
  }

  function MonthLength(year: int, month: int): int {
    if month == 2 then (if Leap(year) then 29 else 28)
    else if month == 4 || month == 6 || month == 9 || month == 11 then 30
    else 31
  }

  predicate Valid(d: Date) {
    1 <= d.month <= 12 && 1 <= d.day <= MonthLength(d.year, d.month)
  }

  function NextDay(d: Date): Date {
    if d.day < MonthLength(d.year, d.month) then Date(d.year, d.month, d.day + 1)
    else if d.month < 12 then Date(d.year, d.month + 1, 1)
    else Date(d.year + 1, 1, 1)
  }

  function PreviousDay(d: Date): Date {
    if 1 < d.day then Date(d.year, d.month, d.day - 1)
    else if 1 < d.month then Date(d.year, d.month - 1, MonthLength(d.year, d.month - 1))
    else Date(d.year - 1, 12, 31)
  }

  /** The date `n` days after 1970-01-01, or before it if `n` is negative. */
  function Walk(n: int): Date
    decreases if n < 0 then -n else n
  {
    if n == 0 then Date(1970, 1, 1)
    else if n > 0 then NextDay(Walk(n - 1))
    else PreviousDay(Walk(n + 1))
  }

  ghost predicate Earlier(a: Date, b: Date) {
    a.year < b.year || (a.year == b.year && (a.month < b.month || (a.month == b.month && a.day < b.day)))
  }

  // ---- Years that begin in March ----

  /** The place of a day in the 400-year cycle: its era, its century in the era, its
      four-year cycle in the century, its year in the cycle and its day in that year.
      Years begin in March, so a leap day is the last day of its year. */
  datatype Place = Place(era: int, century: int, cycle: int, year: int, day: int)

  /** The last year of a four-year cycle has a leap day, unless it ends one of the
      first three centuries of the era. */
  predicate LongYear(p: Place) {
    p.year == 3 && (p.cycle < 24 || p.century == 3)
  }

  predicate InEra(p: Place) {
    && 0 <= p.century <= 3 && 0 <= p.cycle <= 24 && 0 <= p.year <= 3
    && 0 <= p.day < if LongYear(p) then 366 else 365
  }

  function YearIn(p: Place): int {
    100 * p.century + 4 * p.cycle + p.year
  }

  function DayIn(p: Place): int {
    36524 * p.century + 1461 * p.cycle + 365 * p.year + p.day
  }

  function DayNumber(p: Place): int {
    p.era * 146097 + DayIn(p) - 719468
  }

  /** The months of a year that begins in March, by the days before each. */
  function DateByTable(year: int, doy: int): Date {
    if doy < 31 then Date(year, 3, doy + 1)
    else if doy < 61 then Date(year, 4, doy - 30)
    else if doy < 92 then Date(year, 5, doy - 60)
    else if doy < 122 then Date(year, 6, doy - 91)
    else if doy < 153 then Date(year, 7, doy - 121)
    else if doy < 184 then Date(year, 8, doy - 152)
    else if doy < 214 then Date(year, 9, doy - 183)
    else if doy < 245 then Date(year, 10, doy - 213)
    else if doy < 275 then Date(year, 11, doy - 244)
    else if doy < 306 then Date(year, 12, doy - 274)
    else if doy < 337 then Date(year + 1, 1, doy - 305)
    else Date(year + 1, 2, doy - 336)
  }

  function DateAt(p: Place): Date {
    DateByTable(YearIn(p) + p.era * 400, p.day)
  }

  /** The year formula is right on every day of every year of an era. */
  lemma YearOfEraIsRight(p: Place)
    requires InEra(p)
    ensures 0 <= DayIn(p) < 146097
    ensures YearOfEra(DayIn(p)) == YearIn(p)
  {
    var doe, y := DayIn(p), YearIn(p);
    var over := 24 * p.century + p.cycle + 365 * p.year + p.day;
    var carry := if over >= 1460 then 1 else 0;
    Quotient(doe, 1460, 25 * p.century + p.cycle + carry, over - 1460 * carry);
    if doe != 146096 {
      Quotient(doe, 36524, p.century, doe - 36524 * p.century);
      Quotient(doe, 146096, 0, doe);
    }
    Quotient(365 * y + p.day - carry, 365, y, p.day - carry);
  }

  /** The months since March, by the table. */
  function MonthIndex(doy: int): int {
    if doy < 31 then 0 else if doy < 61 then 1 else if doy < 92 then 2 else if doy < 122 then 3
    else if doy < 153 then 4 else if doy < 184 then 5 else if doy < 214 then 6 else if doy < 245 then 7
    else if doy < 275 then 8 else if doy < 306 then 9 else if doy < 337 then 10 else 11
  }

  lemma MonthIndexIs(doy: int)
    requires 0 <= doy < 366
    ensures (5 * doy + 2) / 153 == MonthIndex(doy)
  {
    Quotient(5 * doy + 2, 153, MonthIndex(doy), 5 * doy + 2 - 153 * MonthIndex(doy));
  }

  /** The month formula is the table. */
  lemma MonthFormula(year: int, doy: int)
    requires 0 <= doy < 366
    ensures DateInYear(year, doy) == DateByTable(year, doy)
  {
    MonthIndexIs(doy);
  }

  lemma DateInEraAt(p: Place)
    requires InEra(p)
    ensures DateInEra(p.era, DayIn(p)) == DateAt(p)
  {
    var y := YearIn(p);
    YearOfEraIsRight(p);
    Quotient(y, 4, 25 * p.century + p.cycle, p.year);
    Quotient(y, 100, p.century, 4 * p.cycle + p.year);
    assert DayIn(p) - (365 * y + y / 4 - y / 100) == p.day;
    MonthFormula(y + p.era * 400, p.day);
  }

  lemma CivilAt(n: int, p: Place)
    requires InEra(p) && DayNumber(p) == n
    ensures CivilFromDays(n) == DateAt(p)
  {
    YearOfEraIsRight(p);
    DateInEraAt(p);
    Quotient(n + 719468, 146097, p.era, DayIn(p));
  }

  /** Every day number has a place. */
  function PlaceOf(n: int): (p: Place)
    ensures InEra(p) && DayNumber(p) == n
  {
    var z := n + 719468;
    var doe := z % 146097;
    var c := if doe == 146096 then 3 else doe / 36524;
    var r := doe - 36524 * c;
    var f := r / 1461;
    var s := r - 1461 * f;
    var y := if s == 1460 then 3 else s / 365;
    Place(z / 146097, c, f, y, s - 365 * y)
  }

  /** The calendar year in which a place's January and February fall is a leap year
      exactly if the place's year is long. */
  lemma LongYearIsLeap(p: Place)
    requires InEra(p)
    ensures Leap(YearIn(p) + p.era * 400 + 1) == LongYear(p)
  {
    var a := YearIn(p) + p.era * 400 + 1;
    if p.year < 3 {
      Quotient(a, 4, 25 * p.century + p.cycle + 100 * p.era, p.year + 1);
    } else {
      Quotient(a, 4, 25 * p.century + p.cycle + 1 + 100 * p.era, 0);
      if p.cycle < 24 {
        Quotient(a, 100, p.century + 4 * p.era, 4 * p.cycle + 4);
      } else {
        Quotient(a, 100, p.century + 1 + 4 * p.era, 0);
        if p.century == 3 {
          Quotient(a, 400, p.era + 1, 0);
        } else {
          Quotient(a, 400, p.era, YearIn(p) + 1);
        }
      }
    }
  }

  function NextPlace(p: Place): Place {
    if p.day + 1 < (if LongYear(p) then 366 else 365) then Place(p.era, p.century, p.cycle, p.year, p.day + 1)
    else if p.year < 3 then Place(p.era, p.century, p.cycle, p.year + 1, 0)
    else if p.cycle < 24 then Place(p.era, p.century, p.cycle + 1, 0, 0)
    else if p.century < 3 then Place(p.era, p.century + 1, 0, 0, 0)
    else Place(p.era + 1, 0, 0, 0, 0)
  }

  lemma NextPlaceIsNext(p: Place)
    requires InEra(p)
    ensures InEra(NextPlace(p)) && DayNumber(NextPlace(p)) == DayNumber(p) + 1
  {
  }

  lemma TableStep(year: int, doy: int)
    requires 0 <= doy < if Leap(year + 1) then 366 else 365
    ensures Valid(DateByTable(year, doy))
    ensures NextDay(DateByTable(year, doy))
         == if doy + 1 < (if Leap(year + 1) then 366 else 365) then DateByTable(year, doy + 1)
            else DateByTable(year + 1, 0)
  {
  }

  lemma DateStep(p: Place)
    requires InEra(p)
    ensures Valid(DateAt(p))
    ensures DateAt(NextPlace(p)) == NextDay(DateAt(p))
  {
    hide DateByTable, NextDay, Valid, Leap;
    LongYearIsLeap(p);
    TableStep(YearIn(p) + p.era * 400, p.day);
  }

  // ---- The calendar conversion is the calendar ----

  /** Some assignment of dates to day numbers goes to the next day of the calendar at `n`. */
  ghost predicate StepsAt(date: int -> Date, n: int) {
    Valid(date(n)) && date(n + 1) == NextDay(date(n))
  }

  /** One more day is the next day of the calendar, at every day number. */
  lemma CivilStep(n: int)
    ensures StepsAt(CivilFromDays, n)
  {
    hide CivilFromDays, DateAt, NextDay, Valid, PlaceOf, NextPlace, InEra, DayNumber;
    var p := PlaceOf(n);
    var next := NextPlace(p);
    NextPlaceIsNext(p);
    var now, then' := CivilFromDays(n), CivilFromDays(n + 1);
    assert now == DateAt(p) by { CivilAt(n, p); }
    assert then' == DateAt(next) by { CivilAt(n + 1, next); }
    assert Valid(now) && then' == NextDay(now) by { DateStep(p); }
  }

  lemma PreviousUndoesNext(d: Date)
    requires Valid(d)
    ensures PreviousDay(NextDay(d)) == d
  {
  }

  lemma {:induction false} StepsWalk(date: int -> Date, n: int)
    requires date(0) == Date(1970, 1, 1)
    requires forall k :: StepsAt(date, k)
    ensures date(n) == Walk(n)
    decreases if n < 0 then -n else n
  {
    if n > 0 {
      StepsWalk(date, n - 1);
      assert StepsAt(date, n - 1);
    } else if n < 0 {
      StepsWalk(date, n + 1);
      assert StepsAt(date, n);
      PreviousUndoesNext(date(n));
    }
  }

  lemma {:induction false} StepsRise(date: int -> Date, m: int, n: int)
    requires forall k :: StepsAt(date, k)
    requires m < n
    ensures Earlier(date(m), date(n))
    decreases n - m
  {
    assert StepsAt(date, n - 1);
    if m < n - 1 {
      StepsRise(date, m, n - 1);
    }
  }

  lemma CivilSteps()
    ensures forall k :: StepsAt(CivilFromDays, k)
  {
    forall k ensures StepsAt(CivilFromDays, k) { CivilStep(k); }
  }

  lemma Epoch()
    ensures CivilFromDays(0) == Date(1970, 1, 1)
  {
    CivilAt(0, Place(4, 3, 17, 1, 306));
  }

  /** The closed form gives the date reached by walking from 1970-01-01. */
  lemma CivilIsWalk(n: int)
    ensures CivilFromDays(n) == Walk(n)
    ensures Valid(CivilFromDays(n))
  {
    CivilSteps();
    Epoch();
    StepsWalk(CivilFromDays, n);
    assert StepsAt(CivilFromDays, n);
  }

  /** Later days have later dates, so no two days share a date. */
  lemma CivilIsMonotone(m: int, n: int)
    requires m < n
    ensures Earlier(CivilFromDays(m), CivilFromDays(n))
  {
    CivilSteps();
    StepsRise(CivilFromDays, m, n);
  }

  // ---- Timestamps ----

  /** A point of time, by the calendar and the clock. */
  datatype Instant =
    Instant(year: nat, month: nat, day: nat, hour: nat, minute: nat, second: nat, nanos: nat)

  predicate Ranged(t: Instant) {
    t.month < 100 && t.day < 100 && t.hour < 100 && t.minute < 100 && t.second < 100 && t.nanos < 1000000000
  }

  lemma SinceEpoch(n: nat)
    ensures var d := CivilFromDays(n); 1970 <= d.year && 1 <= d.month <= 12 && 1 <= d.day <= 31
  {
    CivilIsWalk(n);
    Epoch();
    if n > 0 {
      CivilIsMonotone(0, n);
    }
  }

  function InstantOf(secs: nat, nanos: nat): (t: Instant)
    ensures nanos < 1000000000 ==> Ranged(t)
  {
    var rem := secs % 86400;
    SinceEpoch(secs / 86400);
    var date := CivilFromDays(secs / 86400);
    Instant(date.year, date.month, date.day, rem / 3600, rem % 3600 / 60, rem % 60, nanos)
  }

  function Stamp(t: Instant): string {
    Padded(t.year, 4) + ("-" + (Padded(t.month, 2) + ("-" + (Padded(t.day, 2) + ("T" + ClockStamp(t))))))
  }

  function ClockStamp(t: Instant): string {
    Padded(t.hour, 2) + (":" + (Padded(t.minute, 2) + (":" + (Padded(t.second, 2) + ("." + (Padded(t.nanos, 9) + "Z"))))))
  }

  function Rfc3339(secs: nat, nanos: nat): string {
    Stamp(InstantOf(secs, nanos))
  }

  /** The columns of a time of day and of a date. */
  lemma ClockColumns(h: string, m: string, s: string, n: string)
    requires |h| == |m| == |s| == 2 && |n| == 9
    ensures var t := h + (":" + (m + (":" + (s + ("." + (n + "Z"))))));
            && |t| == 19 && t[2] == ':' && t[5] == ':' && t[8] == '.' && t[18] == 'Z'
            && t[..2] == h && t[3..5] == m && t[6..8] == s && t[9..18] == n
  {
  }

  lemma DateColumns(y: string, m: string, d: string, clock: string)
    requires |m| == |d| == 2
    ensures var t := y + ("-" + (m + ("-" + (d + ("T" + clock)))));
            var n := |y|;
            && |t| == n + 7 + |clock| && t[n] == '-' && t[n + 3] == '-' && t[n + 6] == 'T'
            && t[..n] == y && t[n + 1..n + 3] == m && t[n + 4..n + 6] == d && t[n + 7..] == clock
  {
  }

  lemma FieldReads(n: nat, width: nat)
    requires 0 < width && n < Power(10, width)
    ensures |Padded(n, width)| == width && Value(Padded(n, width)) == n
  {
    hide Padded, Value, Power;
    PaddedFits(n, width);
    PaddedReadsBack(n, width);
  }

  lemma Widths()
    ensures Power(10, 2) == 100 && Power(10, 4) == 10000 && Power(10, 9) == 1000000000
  {
    assert Power(10, 3) == 1000;
    assert Power(10, 5) == 100000;
    assert Power(10, 7) == 10000000;
  }

  /** The text of a time of day, column by column: HH:MM:SS.nnnnnnnnnZ. */
  ghost predicate ReadsClock(s: string, t: Instant) {
    && |s| == 19 && s[2] == ':' && s[5] == ':' && s[8] == '.' && s[18] == 'Z'
    && Value(s[..2]) == t.hour && Value(s[3..5]) == t.minute && Value(s[6..8]) == t.second
    && Value(s[9..18]) == t.nanos
  }

  /** The text of a timestamp: the year, then -MM-DDT and the time of day. */
  ghost predicate ReadsAs(s: string, t: Instant) {
    && |s| >= 30
    && var n := |s| - 26;
       && Value(s[..n]) == t.year && s[n] == '-' && Value(s[n + 1..n + 3]) == t.month && s[n + 3] == '-'
       && Value(s[n + 4..n + 6]) == t.day && s[n + 6] == 'T' && ReadsClock(s[n + 7..], t)
  }

  lemma ClockReads(t: Instant)
    requires Ranged(t)
    ensures ReadsClock(ClockStamp(t), t)
  {
    hide Padded, Value, Power;
    Widths();
    FieldReads(t.hour, 2);
    FieldReads(t.minute, 2);
    FieldReads(t.second, 2);
    FieldReads(t.nanos, 9);
    ClockColumns(Padded(t.hour, 2), Padded(t.minute, 2), Padded(t.second, 2), Padded(t.nanos, 9));
  }

  lemma YearReads(n: nat)
    ensures Value(Padded(n, 4)) == n && |Padded(n, 4)| >= 4
    ensures |Padded(n, 4)| == 4 <==> n < 10000
  {
    Widths();
    PaddedReadsBack(n, 4);
    if n < 10000 {
      PaddedFits(n, 4);
    } else {
      DecimalIsLong(n, 4);
    }
  }

  /** The text of an instant reads back as that instant, whatever its year; it has the
      thirty characters of RFC 3339 exactly up to the year 9999. */
  lemma StampReadsBack(t: Instant)
    requires Ranged(t)
    ensures ReadsAs(Stamp(t), t)
    ensures |Stamp(t)| == 30 <==> t.year < 10000
  {
    hide Padded, Value, Power, ClockStamp, ReadsClock;
    Widths();
    ClockReads(t);
    ClockLength(t);
    YearReads(t.year);
    FieldReads(t.month, 2);
    FieldReads(t.day, 2);
    DateColumns(Padded(t.year, 4), Padded(t.month, 2), Padded(t.day, 2), ClockStamp(t));
  }

  lemma ClockLength(t: Instant)
    requires Ranged(t)
    ensures |ClockStamp(t)| == 19
  {
    ClockReads(t);
  }

  /** The clock fields are in range and add up to the second of the day. */
  lemma ClockAddsUp(secs: nat, nanos: nat)
    ensures var t := InstantOf(secs, nanos);
            && t.hour < 24 && t.minute < 60 && t.second < 60 && t.nanos == nanos
            && 3600 * t.hour + 60 * t.minute + t.second == secs % 86400
            && Date(t.year, t.month, t.day) == Walk(secs / 86400)
  {
    hide CivilFromDays, Walk;
    CivilIsWalk(secs / 86400);
    ClockSum(secs % 86400);
  }

  lemma ClockSum(s: nat)
    requires s < 86400
    ensures s / 3600 < 24 && s % 3600 / 60 < 60
    ensures 3600 * (s / 3600) + 60 * (s % 3600 / 60) + s % 60 == s
  {
  }

  lemma InstantDetermines(secs: nat, nanos: nat, secs': nat, nanos': nat)
    requires InstantOf(secs, nanos) == InstantOf(secs', nanos')
    ensures secs == secs' && nanos == nanos'
  {
    hide CivilFromDays, Walk;
    var day, day' := secs / 86400, secs' / 86400;
    assert CivilFromDays(day) == CivilFromDays(day');
    if day < day' {
      CivilIsMonotone(day, day');
    } else if day' < day {
      CivilIsMonotone(day', day);
    }
    ClockAddsUp(secs, nanos);
    ClockAddsUp(secs', nanos');
  }

  /** A timestamp's text is its own: two timestamps share one only if they are equal. */
  lemma Rfc3339IsFaithful(secs: nat, nanos: nat, secs': nat, nanos': nat)
    requires nanos < 1000000000 && nanos' < 1000000000
    ensures Rfc3339(secs, nanos) == Rfc3339(secs', nanos') <==> secs == secs' && nanos == nanos'
  {
    hide InstantOf, Stamp, Value;
    if Rfc3339(secs, nanos) == Rfc3339(secs', nanos') {
      StampReadsBack(InstantOf(secs, nanos));
      StampReadsBack(InstantOf(secs', nanos'));
      InstantDetermines(secs, nanos, secs', nanos');
    }
  }
}
