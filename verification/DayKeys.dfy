// Calendar days as strings. Day numbers count from 1970-01-01, as in section 21.4.1 of ECMA-262.
module DayKeys {
  import opened Prelude
  import opened Text

  const MS_PER_DAY := 24 * 60 * 60 * 1000
  const UTC_OFFSET_MS := 8 * 60 * 60 * 1000

  // Instants a Date can hold lie within this many days of 1970-01-01.
  const MAX_DAY := 100_000_000

  // ── The proleptic Gregorian calendar ──

  datatype Civil = Civil(year: int, month: int, day: int)

  predicate Leap(y: int) {
    y % 4 == 0 && (y % 100 != 0 || y % 400 == 0)
  }

  function DayFromYear(y: int): int {
    365 * (y - 1970) + (y - 1969) / 4 - (y - 1901) / 100 + (y - 1601) / 400
  }

  function DaysInYear(y: int): int {
    if Leap(y) then 366 else 365
  }

  // Days of the year before the given month; month 13 is the end of the year.
  function DaysBefore(y: int, month: int): (d: int)
    requires 1 <= month <= 13
  {
    [0, 31, 59, 90, 120, 151, 181, 212, 243, 273, 304, 334, 365][month - 1] + if 2 < month && Leap(y) then 1 else 0
  }

  predicate ValidCivil(c: Civil) {
    1 <= c.month <= 12 && 1 <= c.day <= DaysBefore(c.year, c.month + 1) - DaysBefore(c.year, c.month)
  }

  function DayNumber(c: Civil): int
    requires ValidCivil(c)
  {
    DayFromYear(c.year) + DaysBefore(c.year, c.month) + c.day - 1
  }

  lemma YearLength(y: int)
    ensures DayFromYear(y + 1) == DayFromYear(y) + DaysInYear(y)
  {
    Quotients(y - 1969, 4);
    Quotients(y - 1901, 100);
    Quotients(y - 1601, 400);
  }

  lemma Quotients(a: int, b: int)
    requires b == 4 || b == 100 || b == 400
    ensures (a + 1) / b == a / b + if (a + 1) % b == 0 then 1 else 0
  {
  }

  lemma {:induction false} YearsAreOrdered(y: int, z: int)
    requires y < z
    ensures DayFromYear(y) + 365 <= DayFromYear(z)
    decreases z - y
  {
    YearLength(y);
    if y + 1 < z { YearsAreOrdered(y + 1, z); }
  }

  // The year a day lies in, searched from the given year on.
  function YearOf(n: int, from: int): (y: int)
    ensures DayFromYear(y) <= n < DayFromYear(y + 1)
    decreases n < DayFromYear(from), if n < DayFromYear(from) then DayFromYear(from) - n else n - DayFromYear(from)
  {
    YearLength(from);
    YearLength(from - 1);
    if n < DayFromYear(from) then YearOf(n, from - 1)
    else if DayFromYear(from + 1) <= n then YearOf(n, from + 1)
    else from
  }

  // The month of a day of the year, searched downwards.
  function MonthOf(y: int, d: int, month: int): (m: int)
    requires 1 <= month <= 12 && 0 <= d < DaysBefore(y, month + 1)
    ensures 1 <= m <= month && DaysBefore(y, m) <= d < DaysBefore(y, m + 1)
    decreases month
  {
    if DaysBefore(y, month) <= d then month else MonthOf(y, d, month - 1)
  }

  function CivilOf(n: int): (c: Civil)
    ensures ValidCivil(c) && DayNumber(c) == n
  {
    var y := YearOf(n, 1970);
    var d := n - DayFromYear(y);
    YearLength(y);
    var m := MonthOf(y, d, 12);
    Civil(y, m, d - DaysBefore(y, m) + 1)
  }

  ghost predicate Earlier(a: Civil, b: Civil) {
    a.year < b.year || (a.year == b.year && (a.month < b.month || (a.month == b.month && a.day < b.day)))
  }

  lemma DaysBeforeGrows(y: int, m: int, n: int)
    requires 1 <= m <= n <= 13
    ensures DaysBefore(y, m) <= DaysBefore(y, n) <= DaysInYear(y)
  {
  }

  lemma EarlierIsSmaller(a: Civil, b: Civil)
    requires ValidCivil(a) && ValidCivil(b) && Earlier(a, b)
    ensures DayNumber(a) < DayNumber(b)
  {
    DaysBeforeGrows(a.year, a.month + 1, 13);
    DaysBeforeGrows(b.year, 1, b.month);
    if a.year < b.year {
      YearLength(a.year);
      if a.year + 1 < b.year { YearsAreOrdered(a.year + 1, b.year); }
    } else if a.month < b.month {
      DaysBeforeGrows(a.year, a.month + 1, b.month);
    }
  }

  // Day numbers and valid dates correspond one to one, and in order.
  lemma CivilOrder(a: Civil, b: Civil)
    requires ValidCivil(a) && ValidCivil(b)
    ensures DayNumber(a) < DayNumber(b) <==> Earlier(a, b)
    ensures DayNumber(a) == DayNumber(b) <==> a == b
  {
    if Earlier(a, b) { EarlierIsSmaller(a, b); }
    if Earlier(b, a) { EarlierIsSmaller(b, a); }
  }

  lemma CivilOfDayNumber(c: Civil)
    requires ValidCivil(c)
    ensures CivilOf(DayNumber(c)) == c
  {
    CivilOrder(CivilOf(DayNumber(c)), c);
  }

  // ── Keys ──

  // Years that ISO strings write with four digits.
  predicate Keyed(n: int) {
    DayFromYear(0) <= n < DayFromYear(10000)
  }

  lemma KeyedYears(n: int)
    ensures Keyed(n) <==> 0 <= CivilOf(n).year <= 9999
  {
    var y := CivilOf(n).year;
    YearLength(y);
    var c := CivilOf(n);
    DaysBeforeGrows(y, 1, c.month);
    DaysBeforeGrows(y, c.month + 1, 13);
    if y < 0 && y + 1 < 0 { YearsAreOrdered(y + 1, 0); }
    if 0 < y { YearsAreOrdered(0, y); }
    if y < 9999 { YearsAreOrdered(y + 1, 10000); }
    if 10000 < y { YearsAreOrdered(10000, y); }
  }

  function MonthAndDay(c: Civil): string
    requires 0 <= c.month && 0 <= c.day
  {
    "-" + Pad(2, c.month) + "-" + Pad(2, c.day)
  }

  // The first ten characters of the ISO string of midnight: four digits of the year, or a sign and six digits, which
  // leave no room for the day.
  function IsoDay(n: int): string {
    var c := CivilOf(n);
    if 0 <= c.year <= 9999 then Pad(4, c.year) + MonthAndDay(c)
    else if c.year < 0 then "-" + Pad(6, -c.year) + "-" + Pad(2, c.month)
    else "+" + Pad(6, c.year) + "-" + Pad(2, c.month)
  }

  // Reading a day key; None is the invalid time. Strings of other shapes are outside the model and read as invalid.
  function ParseDay(s: string): Option<int> {
    if |s| == 10 && AllDigits(s[..4]) && s[4] == '-' && AllDigits(s[5..7]) && s[7] == '-' && AllDigits(s[8..]) then
      var c := Civil(Value(s[..4]), Value(s[5..7]), Value(s[8..]));
      if ValidCivil(c) then Some(DayNumber(c)) else None
    else None
  }

  predicate IsDayKey(s: string) {
    ParseDay(s).Some?
  }

  function DayOf(s: string): int
    requires IsDayKey(s)
  {
    ParseDay(s).value
  }

  // None when the date arithmetic throws.
  function ShiftDayKey(dayKey: string, deltaDays: int): Option<string> {
    var time := ParseDay(dayKey);
    if time.None? || time.value + deltaDays < -MAX_DAY || MAX_DAY < time.value + deltaDays then None
    else Some(IsoDay(time.value + deltaDays))
  }

  // The shape of four digits, two digits and two digits.
  lemma Fields(y: nat, m: nat, d: nat)
    ensures var s := Pad(4, y) + ("-" + Pad(2, m) + "-" + Pad(2, d));
            && |s| == 10 && s[..4] == Pad(4, y) && s[4] == '-' && s[5..7] == Pad(2, m) && s[7] == '-' && s[8..] == Pad(2, d)
  {
  }

  lemma CivilBounds(c: Civil)
    requires ValidCivil(c)
    ensures 1 <= c.month <= 12 && 1 <= c.day <= 31
  {
  }

  lemma Powers()
    ensures Pow10(2) == 100 && Pow10(3) == 1000 && Pow10(4) == 10000
  {
    assert Pow10(1) == 10;
    assert Pow10(3) == 1000;
  }

  lemma ParseOfIsoDay(n: int)
    requires Keyed(n)
    ensures ParseDay(IsoDay(n)) == Some(n)
  {
    KeyedYears(n);
    var c := CivilOf(n);
    CivilBounds(c);
    Powers();
    Fields(c.year, c.month, c.day);
    ValueOfPad(4, c.year);
    ValueOfPad(2, c.month);
    ValueOfPad(2, c.day);
    hide Pad, Value, CivilOf, ValidCivil, DayNumber, Pow10;
  }

  lemma IsoDayOfParse(s: string)
    requires IsDayKey(s)
    ensures Keyed(DayOf(s)) && IsoDay(DayOf(s)) == s
  {
    hide Pad, Value, CivilOf, ValidCivil, DayNumber, Pow10, AllDigits, Keyed;
    var c := Civil(Value(s[..4]), Value(s[5..7]), Value(s[8..]));
    FieldsPrintBack(s);
    CivilOfDayNumber(c);
    KeyedYears(DayOf(s));
  }

  // The fields of a key, read and printed again, are the key.
  lemma FieldsPrintBack(s: string)
    requires |s| == 10 && AllDigits(s[..4]) && s[4] == '-' && AllDigits(s[5..7]) && s[7] == '-' && AllDigits(s[8..])
    ensures Value(s[..4]) < 10000
    ensures Pad(4, Value(s[..4])) + ("-" + Pad(2, Value(s[5..7])) + "-" + Pad(2, Value(s[8..]))) == s
  {
    hide Pad, Value, Pow10;
    Powers();
    PadOfValue(s[..4]);
    PadOfValue(s[5..7]);
    PadOfValue(s[8..]);
    assert s == s[..4] + ("-" + s[5..7] + "-" + s[8..]);
  }

  // ── Keys against the calendar ──

  // The length of a month, by the rules of the calendar alone.
  function MonthLength(year: int, month: int): int {
    if month == 4 || month == 6 || month == 9 || month == 11 then 30
    else if month != 2 then 31
    else if year % 400 == 0 || (year % 4 == 0 && year % 100 != 0) then 29
    else 28
  }

  function NextDay(c: Civil): Civil {
    if c.day < MonthLength(c.year, c.month) then Civil(c.year, c.month, c.day + 1)
    else if c.month < 12 then Civil(c.year, c.month + 1, 1)
    else Civil(c.year + 1, 1, 1)
  }

  // Counting days is walking through the calendar, over month ends, leap days and year ends.
  lemma DaysFollowTheCalendar(n: int)
    ensures CivilOf(0) == Civil(1970, 1, 1) && CivilOf(n + 1) == NextDay(CivilOf(n))
  {
    FirstDay();
    hide CivilOf, NextDay, DayFromYear, DaysBefore, MonthLength;
    var c := CivilOf(n);
    NextDayNumber(c);
    CivilOfDayNumber(NextDay(c));
  }

  lemma FirstDay()
    ensures CivilOf(0) == Civil(1970, 1, 1)
  {
    hide CivilOf;
    assert DayNumber(Civil(1970, 1, 1)) == 0;
    CivilOfDayNumber(Civil(1970, 1, 1));
  }

  lemma NextDayNumber(c: Civil)
    requires ValidCivil(c)
    ensures ValidCivil(NextDay(c)) && DayNumber(NextDay(c)) == DayNumber(c) + 1
  {
    YearLength(c.year);
    hide DayFromYear;
  }

  // How a key reads: four digits of the year, two of the month and two of the day.
  lemma KeyText(n: int)
    requires Keyed(n)
    ensures var Civil(y, m, d) := CivilOf(n);
            && 0 <= y < 10000 && 0 <= m < 100 && 0 <= d < 100
            && IsoDay(n) == [DIGITS[y / 1000], DIGITS[y / 100 % 10], DIGITS[y / 10 % 10], DIGITS[y % 10], '-',
                             DIGITS[m / 10], DIGITS[m % 10], '-', DIGITS[d / 10], DIGITS[d % 10]]
  {
    hide CivilOf, Pad, ValidCivil, DayNumber, Keyed, DIGITS;
    KeyedYears(n);
    CivilBounds(CivilOf(n));
    PadFour(CivilOf(n).year);
    PadTwo(CivilOf(n).month);
    PadTwo(CivilOf(n).day);
  }

  // Past the four-digit years a sign and six digits of the year leave room for the month only.
  lemma LongYearText(n: int)
    requires !Keyed(n) && -1_000_000 < CivilOf(n).year < 1_000_000
    ensures var Civil(y, m, _) := CivilOf(n);
            && (y < 0 || 10000 <= y) && 0 <= m < 100
            && var z := if y < 0 then -y else y;
               IsoDay(n) == [if y < 0 then '-' else '+', DIGITS[z / 100_000], DIGITS[z / 10_000 % 10], DIGITS[z / 1000 % 10],
                             DIGITS[z / 100 % 10], DIGITS[z / 10 % 10], DIGITS[z % 10], '-', DIGITS[m / 10], DIGITS[m % 10]]
  {
    hide CivilOf, Pad, ValidCivil, DayNumber, Keyed, DIGITS;
    KeyedYears(n);
    CivilBounds(CivilOf(n));
    PadSix(if CivilOf(n).year < 0 then -CivilOf(n).year else CivilOf(n).year);
    PadTwo(CivilOf(n).month);
  }

  const DIGITS := "0123456789"

  lemma PadStep(width: nat, n: nat)
    requires 0 < width
    ensures Pad(width, n) == Pad(width - 1, n / 10) + [DIGITS[n % 10]]
  {
    DigitsPrint(n % 10);
  }

  lemma PadTwo(n: nat)
    requires n < 100
    ensures Pad(2, n) == [DIGITS[n / 10], DIGITS[n % 10]]
  {
    PadStep(2, n);
    PadStep(1, n / 10);
    assert Pad(0, n / 10 / 10) == "";
    hide Pad;
  }

  lemma PadFour(n: nat)
    requires n < 10000
    ensures Pad(4, n) == [DIGITS[n / 1000], DIGITS[n / 100 % 10], DIGITS[n / 10 % 10], DIGITS[n % 10]]
  {
    hide Pad;
    PadStep(4, n);
    PadStep(3, n / 10);
    PadTwo(n / 100);
    assert n / 10 / 10 == n / 100 && n / 100 / 10 == n / 1000;
  }

  lemma PadSix(n: nat)
    requires n < 1_000_000
    ensures Pad(6, n) == [DIGITS[n / 100_000], DIGITS[n / 10_000 % 10], DIGITS[n / 1000 % 10], DIGITS[n / 100 % 10],
                          DIGITS[n / 10 % 10], DIGITS[n % 10]]
  {
    hide Pad;
    PadStep(6, n);
    PadStep(5, n / 10);
    PadFour(n / 100);
    assert n / 10 / 10 == n / 100 && n / 100 / 1000 == n / 100_000 && n / 100 / 100 == n / 10_000 && n / 100 / 10 == n / 1000;
  }

  lemma DigitsPrint(k: nat)
    requires k < 10
    ensures Digit(k) == DIGITS[k]
  {
  }

  // The string order of day keys is the order of the days.
  lemma KeyOrder(m: int, n: int)
    requires Keyed(m) && Keyed(n)
    ensures Before(IsoDay(m), IsoDay(n)) <==> m < n
    ensures IsoDay(m) == IsoDay(n) <==> m == n
  {
    KeyedYears(m);
    KeyedYears(n);
    var a, b := CivilOf(m), CivilOf(n);
    CivilBounds(a);
    CivilBounds(b);
    CivilOrder(a, b);
    Powers();
    FieldOrder(a, b);
    ParseOfIsoDay(m);
    ParseOfIsoDay(n);
    hide Before, Pad, Pow10, CivilOf, ValidCivil, DayNumber, ParseDay, MonthAndDay;
  }

  lemma FieldOrder(a: Civil, b: Civil)
    requires 0 <= a.year < 10000 && 0 <= a.month < 100 && 0 <= a.day < 100
    requires 0 <= b.year < 10000 && 0 <= b.month < 100 && 0 <= b.day < 100
    ensures Before(Pad(4, a.year) + MonthAndDay(a), Pad(4, b.year) + MonthAndDay(b)) <==> Earlier(a, b)
  {
    hide Before, Pad, Pow10, MonthAndDay;
    Powers();
    PadOrder(4, a.year, b.year);
    BeforeFields(Pad(4, a.year), MonthAndDay(a), Pad(4, b.year), MonthAndDay(b));
    MonthAndDayOrder(a, b);
  }

  lemma MonthAndDayOrder(a: Civil, b: Civil)
    requires 0 <= a.month < 100 && 0 <= a.day < 100 && 0 <= b.month < 100 && 0 <= b.day < 100
    ensures Before(MonthAndDay(a), MonthAndDay(b)) <==> a.month < b.month || (a.month == b.month && a.day < b.day)
  {
    hide Before, Pad, Pow10;
    Powers();
    PadOrder(2, a.month, b.month);
    PadOrder(2, a.day, b.day);
    var x, y := "-" + Pad(2, a.day), "-" + Pad(2, b.day);
    SameHead('-', Pad(2, a.month) + x, Pad(2, b.month) + y);
    BeforeFields(Pad(2, a.month), x, Pad(2, b.month), y);
    SameHead('-', Pad(2, a.day), Pad(2, b.day));
    assert MonthAndDay(a) == "-" + (Pad(2, a.month) + x);
    assert MonthAndDay(b) == "-" + (Pad(2, b.month) + y);
  }

  lemma SameHead(c: char, x: string, y: string)
    ensures Before([c] + x, [c] + y) <==> Before(x, y)
  {
    assert ([c] + x)[1..] == x && ([c] + y)[1..] == y;
  }

  // Shifting twice is shifting by the sum, wherever the months and years end, as long as the day between has a
  // four-digit year.
  lemma ShiftsAdd(dayKey: string, a: int, b: int)
    requires IsDayKey(dayKey) && Keyed(DayOf(dayKey) + a)
    ensures ShiftDayKey(dayKey, a).Some?
    ensures ShiftDayKey(ShiftDayKey(dayKey, a).value, b) == ShiftDayKey(dayKey, a + b)
  {
    hide ParseDay, IsoDay, DayFromYear;
    KeyedInRange(DayOf(dayKey) + a);
    ParseOfIsoDay(DayOf(dayKey) + a);
  }

  // A shift fails exactly for a key that is no day and for a day out of the range of dates.
  lemma ShiftFailsExactly(dayKey: string, a: int)
    ensures ShiftDayKey(dayKey, a).None? <==>
              !IsDayKey(dayKey) || DayOf(dayKey) + a < -100_000_000 || 100_000_000 < DayOf(dayKey) + a
  {
    hide ParseDay, IsoDay;
  }

  lemma KeyedInRange(n: int)
    requires Keyed(n)
    ensures -MAX_DAY < n < MAX_DAY
  {
  }

  lemma ShiftIsInverse(dayKey: string, a: int)
    requires IsDayKey(dayKey) && Keyed(DayOf(dayKey) + a)
    ensures ShiftDayKey(ShiftDayKey(dayKey, a).value, -a) == Some(dayKey)
  {
    hide ParseDay, IsoDay, DayFromYear;
    ShiftsAdd(dayKey, a, -a);
    IsoDayOfParse(dayKey);
    KeyedInRange(DayOf(dayKey));
  }

  // A shift hits a given day key exactly when the days are that far apart, even past the four-digit years.
  lemma ShiftHits(dayKey: string, delta: int, other: string)
    requires IsDayKey(dayKey) && IsDayKey(other) && -MAX_DAY <= DayOf(dayKey) + delta <= MAX_DAY
    ensures ShiftDayKey(dayKey, delta).Some?
    ensures ShiftDayKey(dayKey, delta).value == other <==> DayOf(dayKey) + delta == DayOf(other)
    ensures IsDayKey(ShiftDayKey(dayKey, delta).value) <==> Keyed(DayOf(dayKey) + delta)
  {
    hide ParseDay, IsoDay, DayFromYear;
    var n := DayOf(dayKey) + delta;
    IsoDayOfParse(other);
    if Keyed(n) {
      KeyOrder(n, DayOf(other));
      ParseOfIsoDay(n);
    } else {
      NotAKey(n);
    }
  }

  lemma NotAKey(n: int)
    requires !Keyed(n)
    ensures !IsDayKey(IsoDay(n))
  {
    KeyedYears(n);
    hide CivilOf, DayFromYear, ValidCivil;
    assert IsoDay(n)[0] == '-' || IsoDay(n)[0] == '+';
    assert !IsDigit(IsoDay(n)[0]);
    assert |IsoDay(n)| == 10 && IsoDay(n)[..4][0] == IsoDay(n)[0];
  }

  // ── Keys of instants, and the keys of a year ──

  function YearText(y: int): string {
    if y < 0 then "-" + Dec(-y) else Dec(y)
  }

  // The calendar day in UTC+8; the year is printed as it is, without padding.
  function ToDayKey(time: int): string {
    var c := CivilOf((time + UTC_OFFSET_MS) / MS_PER_DAY);
    YearText(c.year) + MonthAndDay(c)
  }

  lemma {:induction false} DecIsPad(width: nat, n: nat)
    requires 1 <= width && Pow10(width - 1) <= n < Pow10(width)
    ensures Dec(n) == Pad(width, n)
  {
    if 1 < width { DecIsPad(width - 1, n / 10); }
    else { assert Pad(0, n / 10) == ""; }
  }

  lemma {:induction false} DecLength(width: nat, n: nat)
    requires 1 <= width && n < Pow10(width)
    ensures |Dec(n)| <= width
  {
    if 10 <= n { DecLength(width - 1, n / 10); }
  }

  // For four-digit years from 1000 on, and only for those, the key of an instant is the ISO day of its date in UTC+8.
  lemma ToDayKeyIsIso(time: int)
    requires Keyed((time + 28_800_000) / 86_400_000)
    ensures ToDayKey(time) == IsoDay((time + 28_800_000) / 86_400_000) <==>
              1000 <= CivilOf((time + 28_800_000) / 86_400_000).year
  {
    var n := (time + UTC_OFFSET_MS) / MS_PER_DAY;
    var y := CivilOf(n).year;
    KeyedYears(n);
    Powers();
    if 1000 <= y {
      DecIsPad(4, y);
    } else {
      DecLength(3, y);
      assert |ToDayKey(time)| < |IsoDay(n)|;
    }
  }

  // How the key of an instant reads in any year: the year without padding, then two digits each of month and day.
  lemma ToDayKeyText(time: int)
    ensures var Civil(y, m, d) := CivilOf((time + 28_800_000) / 86_400_000);
            && 0 <= m < 100 && 0 <= d < 100
            && ToDayKey(time) == (if 0 <= y then Dec(y) else "-" + Dec(-y))
                                 + ['-', DIGITS[m / 10], DIGITS[m % 10], '-', DIGITS[d / 10], DIGITS[d % 10]]
  {
    hide CivilOf, Pad, ValidCivil, DayNumber, DIGITS, Dec;
    var c := CivilOf((time + UTC_OFFSET_MS) / MS_PER_DAY);
    CivilBounds(c);
    PadTwo(c.month);
    PadTwo(c.day);
  }

  // The day turns at 16:00 UTC: an instant of UTC day `n` has the key of that day before and of the next day from then on.
  lemma DayTurnsAtFourInTheAfternoon(n: int, ms: nat)
    requires ms < 86_400_000 && Keyed(n) && Keyed(n + 1) && 1000 <= CivilOf(n).year && 1000 <= CivilOf(n + 1).year
    ensures ToDayKey(n * 86_400_000 + ms) == IsoDay(if ms < 57_600_000 then n else n + 1)
  {
    hide ToDayKey, CivilOf, IsoDay, Keyed;
    assert (n * 86_400_000 + ms + 28_800_000) / 86_400_000 == if ms < 57_600_000 then n else n + 1;
    ToDayKeyIsIso(n * 86_400_000 + ms);
  }

  function YearBounds(year: int): (string, string) {
    (YearText(year) + "-01-01", YearText(year + 1) + "-01-01")
  }

  predicate InYearBounds(dayKey: string, year: int) {
    !Before(dayKey, YearBounds(year).0) && Before(dayKey, YearBounds(year).1)
  }

  lemma YearStart(y: int)
    requires 1000 <= y <= 9999
    ensures Keyed(DayFromYear(y)) && IsoDay(DayFromYear(y)) == YearText(y) + "-01-01"
  {
    hide DayFromYear, CivilOf, Pad, Dec, Pow10, Keyed;
    var c := Civil(y, 1, 1);
    assert ValidCivil(c) && DayNumber(c) == DayFromYear(y);
    CivilOfDayNumber(c);
    KeyedYears(DayFromYear(y));
    Powers();
    DecIsPad(4, y);
    FirstOfJanuary(c);
  }

  lemma FirstOfJanuary(c: Civil)
    requires c.month == 1 && c.day == 1
    ensures MonthAndDay(c) == "-01-01"
  {
    assert Pad(1, 1) == "1" && Pad(2, 1) == "01";
  }

  lemma CivilYear(n: int)
    ensures DayFromYear(CivilOf(n).year) <= n < DayFromYear(CivilOf(n).year + 1)
  {
    hide DayFromYear;
  }

  lemma YearOfDay(n: int, y: int)
    ensures CivilOf(n).year == y <==> DayFromYear(y) <= n < DayFromYear(y + 1)
  {
    hide CivilOf, DayFromYear;
    var z := CivilOf(n).year;
    CivilYear(n);
    if z < y && z + 1 < y { YearsAreOrdered(z + 1, y); }
    if y < z && y + 1 < z { YearsAreOrdered(y + 1, z); }
  }

  // A key from a four-digit year lies in the bounds of a year exactly when that is its calendar year. The bounds of
  // 9999 end before they start, since the key of the year after has five digits.
  lemma YearBoundsAreTheYear(n: int, y: int)
    requires Keyed(n) && 1000 <= y <= 9999
    ensures InYearBounds(IsoDay(n), y) <==> CivilOf(n).year == y && y <= 9998
  {
    hide DayFromYear, IsoDay, CivilOf, Before;
    YearStart(y);
    KeyOrder(n, DayFromYear(y));
    YearOfDay(n, y);
    if y <= 9998 {
      YearStart(y + 1);
      KeyOrder(n, DayFromYear(y + 1));
    } else {
      NoKeyInLastBounds(n);
    }
  }

  lemma NoKeyInLastBounds(n: int)
    requires Keyed(n)
    ensures !InYearBounds(IsoDay(n), 9999)
  {
    hide DayFromYear, CivilOf, Dec, Pad, ValidCivil;
    KeyedYears(n);
    YearOfDay(n, 9999);
    if CivilOf(n).year == 9999 {
      LeadingDigit(9999);
      FiveDigits();
      assert IsoDay(n)[0] == '9' && YearBounds(9999).1[0] == '1';
    } else {
      hide Before, IsoDay;
      YearStart(9999);
      KeyOrder(n, DayFromYear(9999));
    }
  }

  lemma LeadingDigit(n: nat)
    ensures Pad(4, n)[0] == Digit((((n / 10) / 10) / 10) % 10)
  {
    assert Pad(1, ((n / 10) / 10) / 10) == [Digit((((n / 10) / 10) / 10) % 10)];
    assert Pad(2, (n / 10) / 10)[0] == Pad(1, ((n / 10) / 10) / 10)[0];
    assert Pad(3, n / 10)[0] == Pad(2, (n / 10) / 10)[0];
  }

  lemma FiveDigits()
    ensures Dec(10000)[0] == '1'
  {
    assert Dec(1) == "1" && Dec(10)[0] == '1' && Dec(100)[0] == '1' && Dec(1000)[0] == '1';
  }
}
