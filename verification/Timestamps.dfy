/** UTC instants as RFC 3339 text with nanoseconds: section 5.6 of RFC 3339.
    An instant counts nanoseconds from the start of year 0. */
module Timestamps {
  import opened Common
  import opened Text

  type Instant = int

  const SECOND: int := 1_000_000_000
  const DAY_SECONDS: int := 86400
  const DAY: int := 86400_000_000_000

  /** A calendar date and the seconds and nanoseconds into its day. */
  datatype Civil = Civil(year: nat, month: nat, day: nat, hour: nat, minute: nat, second: nat, nanos: nat)

  predicate Leap(year: nat) { year % 4 == 0 && (year % 100 != 0 || year % 400 == 0) }

  function YearDays(year: nat): nat { if Leap(year) then 366 else 365 }

  function MonthDays(year: nat, month: nat): nat {
    if month == 2 then (if Leap(year) then 29 else 28)
    else if month in {4, 6, 9, 11} then 30
    else 31
  }

  /** Days before the first of January of `year`. */
  function DaysBeforeYear(year: nat): nat {
    if year == 0 then 0 else DaysBeforeYear(year - 1) + YearDays(year - 1)
  }

  /** Days before the first of `month`, within its year. */
  function DaysBeforeMonth(year: nat, month: nat): nat {
    if month <= 1 then 0 else DaysBeforeMonth(year, month - 1) + MonthDays(year, month - 1)
  }

  function FindYear(days: nat, year: nat): nat
    decreases days
  {
    if days < YearDays(year) then year else FindYear(days - YearDays(year), year + 1)
  }

  function FindMonth(days: nat, year: nat, month: nat): nat
    decreases 12 - month
  {
    if month >= 12 || days < MonthDays(year, month) then month
    else FindMonth(days - MonthDays(year, month), year, month + 1)
  }

  predicate Valid(c: Civil) {
    && c.year <= 9999 && 1 <= c.month <= 12 && 1 <= c.day <= MonthDays(c.year, c.month)
    && c.hour < 24 && c.minute < 60 && c.second < 60 && c.nanos < SECOND
  }

  function ToInstant(c: Civil): Instant
    requires Valid(c)
  {
    (DaysBeforeYear(c.year) + DaysBeforeMonth(c.year, c.month) + c.day - 1) * DAY
    + (c.hour * 3600 + c.minute * 60 + c.second) * SECOND + c.nanos
  }

  /** Instants of the years 0 to 9999, which is what the format can write. */
  predicate Writable(t: Instant) { 0 <= t && t / DAY < DaysBeforeYear(10000) }

  function ToCivil(t: Instant): Civil
    requires 0 <= t
  {
    var days, rest := t / DAY, t % DAY;
    var year := FindYear(days, 0);
    FindYearBounds(days, 0);
    var inYear := days - DaysBeforeYear(year);
    var month := FindMonth(inYear, year, 1);
    FindMonthBounds(inYear, year, 1);
    var seconds := rest / SECOND;
    Civil(year, month, inYear - DaysBeforeMonth(year, month) + 1,
          seconds / 3600, seconds / 60 % 60, seconds % 60, rest % SECOND)
  }

  lemma {:induction false} FindYearBounds(days: nat, year: nat)
    ensures var y := FindYear(days, year);
      && y >= year
      && DaysBeforeYear(y) <= DaysBeforeYear(year) + days < DaysBeforeYear(y) + YearDays(y)
    decreases days
  {
    if days >= YearDays(year) {
      FindYearBounds(days - YearDays(year), year + 1);
    }
  }

  lemma {:induction false} YearsIncrease(a: nat, b: nat)
    requires a <= b
    ensures DaysBeforeYear(a) <= DaysBeforeYear(b)
    decreases b
  {
    if a < b { YearsIncrease(a, b - 1); }
  }

  lemma {:induction false} FindMonthBounds(days: nat, year: nat, month: nat)
    requires 1 <= month <= 12
    ensures var m := FindMonth(days, year, month);
      && month <= m <= 12
      && DaysBeforeMonth(year, m) <= DaysBeforeMonth(year, month) + days
      && (DaysBeforeMonth(year, month) + days < DaysBeforeMonth(year, 12) + MonthDays(year, 12) ==>
            DaysBeforeMonth(year, month) + days < DaysBeforeMonth(year, m) + MonthDays(year, m))
    decreases 12 - month
  {
    if month < 12 && days >= MonthDays(year, month) {
      FindMonthBounds(days - MonthDays(year, month), year, month + 1);
    }
  }

  lemma YearIsItsMonths(year: nat)
    ensures DaysBeforeMonth(year, 12) + MonthDays(year, 12) == YearDays(year)
  {
    assert DaysBeforeMonth(year, 2) == 31;
    assert DaysBeforeMonth(year, 3) == 31 + MonthDays(year, 2);
    assert DaysBeforeMonth(year, 5) == DaysBeforeMonth(year, 3) + 61;
    assert DaysBeforeMonth(year, 7) == DaysBeforeMonth(year, 5) + 61;
    assert DaysBeforeMonth(year, 9) == DaysBeforeMonth(year, 7) + 62;
    assert DaysBeforeMonth(year, 11) == DaysBeforeMonth(year, 9) + 61;
  }

  lemma ClockRoundTrip(rest: int)
    requires 0 <= rest < DAY
    ensures var s := rest / SECOND;
      && s / 3600 < 24
      && (s / 3600 * 3600 + s / 60 % 60 * 60 + s % 60) * SECOND + rest % SECOND == rest
  {
    var s := rest / SECOND;
    assert 0 <= s < DAY_SECONDS;
    assert s / 60 / 60 == s / 3600;
  }

  lemma NextMultiple(n: nat)
    ensures (n + 4) / 4 == (n + 3) / 4 + if n % 4 == 0 then 1 else 0
    ensures (n + 100) / 100 == (n + 99) / 100 + if n % 100 == 0 then 1 else 0
    ensures (n + 400) / 400 == (n + 399) / 400 + if n % 400 == 0 then 1 else 0
  {
    NextMultipleOf(n, 4);
    NextMultipleOf(n, 100);
    NextMultipleOf(n, 400);
  }

  lemma NextMultipleOf(n: nat, k: nat)
    requires k in {4, 100, 400}
    ensures (n + k) / k == (n + k - 1) / k + if n % k == 0 then 1 else 0
  {
    var (q, r) := (n / k, n % k);
    assert n == k * q + r;
    if k == 4 { assert (n + 3) / 4 == if r == 0 then q else q + 1; }
    if k == 100 { assert (n + 99) / 100 == if r == 0 then q else q + 1; }
    if k == 400 { assert (n + 399) / 400 == if r == 0 then q else q + 1; }
  }

  lemma HundredsAreFours(n: nat)
    ensures (n % 400 == 0 ==> n % 100 == 0) && (n % 100 == 0 ==> n % 4 == 0)
  {
    if n % 400 == 0 { MultipleOf(n, 4 * (n / 400), 100); }
    if n % 100 == 0 { MultipleOf(n, 25 * (n / 100), 4); }
  }

  lemma MultipleOf(n: nat, m: nat, k: nat)
    requires k in {4, 100} && n == k * m
    ensures n % k == 0
  {
    if k == 4 { assert n == 4 * m; } else { assert n == 100 * m; }
  }

  /** The Gregorian calendar in closed form: a leap day every fourth year, but not every
      hundredth, unless the four hundredth. */
  lemma {:induction false} DaysOfTheCalendar(year: nat)
    ensures DaysBeforeYear(year) == 365 * year + (year + 3) / 4 - (year + 99) / 100 + (year + 399) / 400
    decreases year
  {
    if year > 0 {
      var last := year - 1;
      DaysOfTheCalendar(last);
      NextMultiple(last);
      HundredsAreFours(last);
      var days := YearDays(last) - 365;
      assert DaysBeforeYear(year) == DaysBeforeYear(last) + 365 + days;
      assert days == (if last % 4 == 0 then 1 else 0) - (if last % 100 == 0 then 1 else 0)
          + (if last % 400 == 0 then 1 else 0);
      hide DaysBeforeYear, YearDays;
    }
  }

  /** The calendar date of an instant names that instant. */
  lemma CivilRoundTrip(t: Instant)
    requires Writable(t)
    ensures Valid(ToCivil(t)) && ToInstant(ToCivil(t)) == t
  {
    var days, rest := t / DAY, t % DAY;
    FindYearBounds(days, 0);
    var year := FindYear(days, 0);
    if year >= 10000 { YearsIncrease(10000, year); }
    var inYear := days - DaysBeforeYear(year);
    YearIsItsMonths(year);
    FindMonthBounds(inYear, year, 1);
    ClockRoundTrip(rest);
    assert t == days * DAY + rest;
  }

  // ---------- text ----------

  /** Trailing zeros of the fraction are not written. */
  function TrimZeros(s: string): string {
    if s != "" && s[|s| - 1] == '0' then TrimZeros(s[..|s| - 1]) else s
  }

  function Fraction(nanos: nat): string {
    var digits := TrimZeros(Fixed(nanos, 10, 9));
    if digits == "" then "" else "." + digits
  }

  function FormatCivil(c: Civil): string {
    Fixed(c.year, 10, 4) + "-" + Fixed(c.month, 10, 2) + "-" + Fixed(c.day, 10, 2) + "T"
    + Fixed(c.hour, 10, 2) + ":" + Fixed(c.minute, 10, 2) + ":" + Fixed(c.second, 10, 2)
    + (Fraction(c.nanos) + "Z")
  }

  /** time.RFC3339Nano, in UTC. */
  function Format(t: Instant): string
    requires 0 <= t
  {
    FormatCivil(ToCivil(t))
  }

  /** Digits read as a fraction of a second; those after the ninth are dropped. */
  function ParseNanos(digits: string): Option<nat> {
    var kept := if |digits| > 9 then digits[..9] else digits;
    match ParseDigits(kept, 10)
    case None => None
    case Some(n) => Some(n * Pow(10, 9 - |kept|))
  }

  function DigitCount(s: string): (n: nat)
    ensures n <= |s|
  {
    if s != "" && '0' <= s[0] <= '9' then 1 + DigitCount(s[1..]) else 0
  }

  /** Z, or an offset of up to 24 hours and up to 60 minutes, in seconds. */
  function ParseZone(s: string): Option<int> {
    if s == "Z" then Some(0)
    else if |s| != 6 || s[3] != ':' || (s[0] != '+' && s[0] != '-') then None
    else match (ParseDigits(s[1..3], 10), ParseDigits(s[4..], 10))
      case (Some(hours), Some(minutes)) =>
        var offset := (hours * 60 + minutes) * 60;
        if hours > 24 || minutes > 60 then None else Some(if s[0] == '-' then -(offset as int) else offset as int)
      case _ => None
  }

  datatype Tail = Tail(nanos: nat, offset: int)

  /** What follows the seconds: an optional fraction of any length after a period or a comma,
      then the zone. */
  function ParseTail(s: string): Option<Tail> {
    var digits := if |s| >= 2 && (s[0] == '.' || s[0] == ',') then DigitCount(s[1..]) else 0;
    var zone := if digits == 0 then s else s[1 + digits..];
    match (if digits == 0 then Some(0) else ParseNanos(s[1..1 + digits]), ParseZone(zone))
    case (Some(nanos), Some(offset)) => Some(Tail(nanos, offset))
    case _ => None
  }

  /** A one-digit hour is read like one with a leading zero. */
  function WithHour(s: string): string { if |s| > 12 && s[12] == ':' then s[..11] + "0" + s[11..] else s }

  /** time.Parse(time.RFC3339Nano, s). */
  function Parse(s: string): Option<Instant> { ParseWide(WithHour(s)) }

  function ParseWide(s: string): Option<Instant> {
    if |s| < 20 || s[4] != '-' || s[7] != '-' || s[10] != 'T' || s[13] != ':' || s[16] != ':' then None
    else
      match (ParseDigits(s[..4], 10), ParseDigits(s[5..7], 10), ParseDigits(s[8..10], 10))
      case (Some(year), Some(month), Some(day)) =>
        (match (ParseDigits(s[11..13], 10), ParseDigits(s[14..16], 10), ParseDigits(s[17..19], 10), ParseTail(s[19..]))
         case (Some(hour), Some(minute), Some(second), Some(tail)) =>
           var c := Civil(year, month, day, hour, minute, second, tail.nanos);
           if Valid(c) then Some(ToInstant(c) - tail.offset * SECOND) else None
         case _ => None)
      case _ => None
  }

  /** A trailing zero adds nothing to a fraction. */
  lemma TrailingZero(s: string)
    requires 0 < |s| <= 9 && s[|s| - 1] == '0'
    ensures ParseNanos(s[..|s| - 1]) == ParseNanos(s)
  {
    var (init, p) := (s[..|s| - 1], Pow(10, 9 - |s|));
    assert Pow(10, 9 - |init|) == 10 * p;
    match ParseDigits(init, 10) {
      case None => assert ParseDigits(s, 10).None?;
      case Some(n) =>
        assert ParseDigits(s, 10) == Some(n * 10);
        assert n * (10 * p) == n * 10 * p;
    }
  }

  lemma {:induction false} TrimKeepsValue(s: string)
    requires |s| <= 9
    ensures |TrimZeros(s)| <= |s| && ParseNanos(TrimZeros(s)) == ParseNanos(s)
    ensures TrimZeros(s) == s[..|TrimZeros(s)|]
    decreases |s|
  {
    if s != "" && s[|s| - 1] == '0' {
      TrailingZero(s);
      TrimKeepsValue(s[..|s| - 1]);
      hide ParseNanos;
      assert s[..|TrimZeros(s)|] == s[..|s| - 1][..|TrimZeros(s)|];
    }
  }

  lemma {:induction false} DigitsAreCounted(digits: string, rest: string)
    requires AllIn(digits, 10) && (rest == "" || !('0' <= rest[0] <= '9'))
    ensures DigitCount(digits + rest) == |digits|
    decreases |digits|
  {
    if digits == "" {
      assert digits + rest == rest;
    } else {
      assert (digits + rest)[1..] == digits[1..] + rest;
      assert DigitValue(digits[0], 10).Some?;
      DigitsAreCounted(digits[1..], rest);
    }
  }

  lemma TailOfDigits(digits: string, nanos: nat)
    requires digits != "" && AllIn(digits, 10) && ParseNanos(digits) == Some(nanos)
    ensures ParseTail("." + digits + "Z") == Some(Tail(nanos, 0))
  {
    var s := "." + digits + "Z";
    hide ParseNanos, AllIn;
    assert s[1..] == digits + "Z";
    DigitsAreCounted(digits, "Z");
    assert s[1..1 + |digits|] == digits && s[1 + |digits|..] == "Z";
  }

  lemma NineDigits(nanos: nat)
    requires nanos < SECOND
    ensures ParseNanos(Fixed(nanos, 10, 9)) == Some(nanos)
  {
    PowersOfTen();
    FixedRoundTrip(nanos, 10, 9);
    hide ParseDigits, Fixed;
    assert Pow(10, 0) == 1;
  }

  lemma TrimmedAreDigits(nanos: nat)
    ensures AllIn(TrimZeros(Fixed(nanos, 10, 9)), 10)
  {
    FixedIsDigits(nanos, 10, 9);
    TrimKeepsValue(Fixed(nanos, 10, 9));
    hide Fixed, TrimZeros, ParseNanos, DigitValue;
  }

  lemma TailRoundTrip(nanos: nat)
    requires nanos < SECOND
    ensures ParseTail(Fraction(nanos) + "Z") == Some(Tail(nanos, 0))
  {
    NineDigits(nanos);
    TrimKeepsValue(Fixed(nanos, 10, 9));
    TrimmedAreDigits(nanos);
    NoDigitsAreZero();
    hide ParseNanos, TrimZeros, Fixed, AllIn;
    var digits := TrimZeros(Fixed(nanos, 10, 9));
    if digits != "" {
      TailOfDigits(digits, nanos);
      hide ParseTail;
      assert Fraction(nanos) + "Z" == "." + digits + "Z";
    } else {
      assert Fraction(nanos) + "Z" == "Z";
    }
  }

  lemma NoDigitsAreZero()
    ensures ParseNanos("") == Some(0)
  {
  }

  lemma PowersOfTen()
    ensures Pow(10, 2) == 100 && Pow(10, 4) == 10_000 && Pow(10, 9) == 1_000_000_000
  {
    assert Pow(10, 3) == 1000;
    assert Pow(10, 6) == 1000 * Pow(10, 3);
    assert Pow(10, 9) == 1000 * Pow(10, 6);
  }

  lemma FieldsAreInPlace(c: Civil)
    ensures var s := FormatCivil(c);
      && |s| >= 20 && s[4] == '-' && s[7] == '-' && s[10] == 'T' && s[13] == ':' && s[16] == ':'
      && s[..4] == Fixed(c.year, 10, 4) && s[5..7] == Fixed(c.month, 10, 2) && s[8..10] == Fixed(c.day, 10, 2)
      && s[11..13] == Fixed(c.hour, 10, 2) && s[14..16] == Fixed(c.minute, 10, 2) && s[17..19] == Fixed(c.second, 10, 2)
      && s[19..] == Fraction(c.nanos) + "Z"
  {
    hide Fixed, Fraction;
  }

  lemma FieldsReadBack(c: Civil)
    requires Valid(c)
    ensures ParseDigits(Fixed(c.year, 10, 4), 10) == Some(c.year)
    ensures ParseDigits(Fixed(c.month, 10, 2), 10) == Some(c.month)
    ensures ParseDigits(Fixed(c.day, 10, 2), 10) == Some(c.day)
    ensures ParseDigits(Fixed(c.hour, 10, 2), 10) == Some(c.hour)
    ensures ParseDigits(Fixed(c.minute, 10, 2), 10) == Some(c.minute)
    ensures ParseDigits(Fixed(c.second, 10, 2), 10) == Some(c.second)
  {
    PowersOfTen();
    FixedRoundTrip(c.year, 10, 4);
    FixedRoundTrip(c.month, 10, 2);
    FixedRoundTrip(c.day, 10, 2);
    FixedRoundTrip(c.hour, 10, 2);
    FixedRoundTrip(c.minute, 10, 2);
    FixedRoundTrip(c.second, 10, 2);
  }

  lemma TwoDigitHour(c: Civil)
    ensures WithHour(FormatCivil(c)) == FormatCivil(c)
  {
    FieldsAreInPlace(c);
    FixedIsDigits(c.hour, 10, 2);
    hide FormatCivil, Fixed;
    assert FormatCivil(c)[12] == FormatCivil(c)[11..13][1];
    assert DigitValue(FormatCivil(c)[12], 10).Some?;
  }

  /** What the fields of a text read as decides what it reads as. */
  lemma FieldsDecide(s: string, c: Civil)
    requires |s| >= 20 && s[4] == '-' && s[7] == '-' && s[10] == 'T' && s[13] == ':' && s[16] == ':'
    requires ParseDigits(s[..4], 10) == Some(c.year) && ParseDigits(s[5..7], 10) == Some(c.month)
    requires ParseDigits(s[8..10], 10) == Some(c.day) && ParseDigits(s[11..13], 10) == Some(c.hour)
    requires ParseDigits(s[14..16], 10) == Some(c.minute) && ParseDigits(s[17..19], 10) == Some(c.second)
    requires ParseTail(s[19..]) == Some(Tail(c.nanos, 0)) && Valid(c)
    ensures ParseWide(s) == Some(ToInstant(c))
  {
    hide ParseDigits, ParseTail, ToInstant, Valid;
  }

  lemma CivilTextRoundTrip(c: Civil)
    requires Valid(c)
    ensures Parse(FormatCivil(c)) == Some(ToInstant(c))
  {
    var s := FormatCivil(c);
    assert c.nanos < SECOND && Parse(s) == ParseWide(WithHour(s));
    hide *;
    TwoDigitHour(c);
    FieldsAreInPlace(c);
    FieldsReadBack(c);
    TailRoundTrip(c.nanos);
    FieldsDecide(s, c);
  }

  /** Writing an instant and reading it back gives the instant. */
  lemma InstantRoundTrip(t: Instant)
    requires Writable(t)
    ensures Parse(Format(t)) == Some(t)
  {
    CivilRoundTrip(t);
    CivilTextRoundTrip(ToCivil(t));
  }
}
