/**
 * The text time.RFC3339 ("2006-01-02T15:04:05Z07:00") gives a UTC instant,
 * "YYYY-MM-DDTHH:MM:SSZ" (section 5.6 of RFC 3339 with no fraction and the
 * offset written "Z"), and the parse of that canonical form.
 */
module Rfc3339 {
  import opened Wrappers
  import opened Digits
  import opened Instants
  import opened Calendar

  const SecondsPerDay: nat := 86400

  /** The first instant of year 10000, the first year that does not fit four digits. */
  const MaxInstant: Instant := DaysBeforeYear(10000) * SecondsPerDay * NanosPerSecond

  /** The broken-down UTC time that the layout writes and reads. */
  datatype Fields = Fields(year: nat, month: nat, day: nat, hour: nat, minute: nat, second: nat)

  /** Every field after the year fits two digits. */
  predicate Writable(f: Fields) {
    f.month < 100 && f.day < 100 && f.hour < 100 && f.minute < 100 && f.second < 100
  }

  /** The fields name a real date from year 1 on and a time of day. */
  predicate InRange(f: Fields) {
    && f.year >= 1 && 1 <= f.month <= 12 && 1 <= f.day <= DaysInMonth(f.year, f.month)
    && f.hour < 24 && f.minute < 60 && f.second < 60
  }

  function DateIn(f: Fields): (d: Date)
    requires InRange(f)
    ensures ValidDate(d)
  {
    Date(f.year, f.month, f.day)
  }

  /** The tens and the units digit of a two-digit field. */
  function Tens(n: nat): char
    requires n < 100
  {
    DigitChar(n / 10)
  }

  function Units(n: nat): char {
    DigitChar(n % 10)
  }

  function Four(n: nat): (s: string)
    requires n < 10000
    ensures |s| == 4
  {
    [Tens(n / 100), Units(n / 100), Tens(n % 100), Units(n % 100)]
  }

  /** The year as the layout element "2006" writes it: zero-padded to four digits, longer years in full. */
  function YearText(y: nat): string {
    if y < 10000 then Four(y) else Decimal(y)
  }

  /** What follows the year: "-MM-DDTHH:MM:SSZ". */
  function Rest(f: Fields): (r: string)
    requires Writable(f)
    ensures |r| == 16
  {
    ['-', Tens(f.month), Units(f.month), '-', Tens(f.day), Units(f.day), 'T',
     Tens(f.hour), Units(f.hour), ':', Tens(f.minute), Units(f.minute), ':', Tens(f.second), Units(f.second), 'Z']
  }

  function Text(f: Fields): string
    requires Writable(f)
  {
    YearText(f.year) + Rest(f)
  }

  /** The date and time of day `secs` seconds after the zero time. */
  function FieldsOf(secs: nat): (f: Fields)
    ensures InRange(f) && Writable(f)
  {
    var d := DateOf(secs / SecondsPerDay);
    var sod := secs % SecondsPerDay;
    Fields(d.year, d.month, d.day, sod / 3600, sod % 3600 / 60, sod % 60)
  }

  /** t.UTC().Format(time.RFC3339): the layout has no fraction, so the nanoseconds are dropped. */
  function Format(t: Instant): (r: string)
    ensures t < MaxInstant ==> Layout(r) && FieldsIn(r) == FieldsOf(t / NanosPerSecond)
  {
    var f := FieldsOf(t / NanosPerSecond);
    if t < MaxInstant then
      YearBelow10000(t);
      TextFields(f);
      Text(f)
    else Text(f)
  }

  /** s has the shape "DDDD-DD-DDTDD:DD:DDZ", D a decimal digit. */
  predicate Layout(s: string) {
    && |s| == 20
    && s[4] == '-' && s[7] == '-' && s[10] == 'T' && s[13] == ':' && s[16] == ':' && s[19] == 'Z'
    && IsDigit(s[0]) && IsDigit(s[1]) && IsDigit(s[2]) && IsDigit(s[3])
    && IsDigit(s[5]) && IsDigit(s[6]) && IsDigit(s[8]) && IsDigit(s[9])
    && IsDigit(s[11]) && IsDigit(s[12]) && IsDigit(s[14]) && IsDigit(s[15])
    && IsDigit(s[17]) && IsDigit(s[18])
  }

  function Num2(s: string, i: nat): (n: nat)
    requires i + 1 < |s| && IsDigit(s[i]) && IsDigit(s[i + 1])
    ensures n < 100
  {
    DigitValue(s[i]) * 10 + DigitValue(s[i + 1])
  }

  function Num4(s: string): (n: nat)
    requires 3 < |s| && IsDigit(s[0]) && IsDigit(s[1]) && IsDigit(s[2]) && IsDigit(s[3])
    ensures n < 10000
  {
    Num2(s, 0) * 100 + Num2(s, 2)
  }

  /** The fields the layout reads from text of its shape. */
  function FieldsIn(s: string): (f: Fields)
    requires Layout(s)
    ensures f.year < 10000 && Writable(f)
  {
    Fields(Num4(s), Num2(s, 5), Num2(s, 8), Num2(s, 11), Num2(s, 14), Num2(s, 17))
  }

  /** The seconds from the zero time to a date and time of day. */
  function SecondsOf(f: Fields): nat
    requires InRange(f)
  {
    DaysOf(DateIn(f)) * SecondsPerDay + f.hour * 3600 + f.minute * 60 + f.second
  }

  /** The instant of a date and time of day, in UTC. */
  function InstantOf(f: Fields): Instant
    requires InRange(f)
  {
    SecondsOf(f) * NanosPerSecond
  }

  /**
   * time.Parse(time.RFC3339, s) on the canonical UTC form: the text must have
   * the layout's shape and its fields must be in range (month 1-12, a day of
   * that month, hour < 24, minute and second < 60). Years before 1 have no
   * instant here and fail.
   */
  function Parse(s: string): (r: Option<Instant>)
    ensures r.Some? ==> r.value % NanosPerSecond == 0 && r.value < MaxInstant
  {
    if !Layout(s) then None
    else
      var f := FieldsIn(s);
      if !InRange(f) then None
      else
        InstantBelowMax(f);
        Some(InstantOf(f))
  }

  /** Every date and time before year 10000 is a whole second before MaxInstant. */
  lemma InstantBelowMax(f: Fields)
    requires InRange(f) && f.year < 10000
    ensures InstantOf(f) % NanosPerSecond == 0 && InstantOf(f) < MaxInstant
  {
    DaysBeforeYearMonotone(f.year, 10000);
    DaysBeforeYearStep(f.year);
    var days := DaysOf(DateIn(f));
    assert days + 1 <= DaysBeforeYear(10000);
    var secs := SecondsOf(f);
    assert secs < (days + 1) * SecondsPerDay;
    assert secs + 1 <= DaysBeforeYear(10000) * SecondsPerDay;
  }

  lemma PairFields(n: nat)
    requires n < 100
    ensures IsDigit(Tens(n)) && IsDigit(Units(n))
    ensures DigitValue(Tens(n)) * 10 + DigitValue(Units(n)) == n
  {
  }

  lemma PairOfDigits(a: char, b: char)
    requires IsDigit(a) && IsDigit(b)
    ensures DigitValue(a) * 10 + DigitValue(b) < 100
    ensures Tens(DigitValue(a) * 10 + DigitValue(b)) == a
    ensures Units(DigitValue(a) * 10 + DigitValue(b)) == b
  {
  }

  lemma FourOfDigits(s: string)
    requires 3 < |s| && IsDigit(s[0]) && IsDigit(s[1]) && IsDigit(s[2]) && IsDigit(s[3])
    ensures Four(Num4(s)) == s[..4]
  {
    PairOfDigits(s[0], s[1]);
    PairOfDigits(s[2], s[3]);
    var n := Num4(s);
    assert n / 100 == Num2(s, 0) && n % 100 == Num2(s, 2);
  }

  lemma FourFields(n: nat)
    requires n < 10000
    ensures var s := Four(n);
      IsDigit(s[0]) && IsDigit(s[1]) && IsDigit(s[2]) && IsDigit(s[3]) && Num4(s) == n
  {
    PairFields(n / 100);
    PairFields(n % 100);
  }

  /** Text written from fields with a four-digit year has the layout's shape and reads back as those fields. */
  lemma TextFields(f: Fields)
    requires Writable(f) && f.year < 10000
    ensures Layout(Text(f)) && FieldsIn(Text(f)) == f
  {
    FourFields(f.year);
    PairFields(f.month);
    PairFields(f.day);
    PairFields(f.hour);
    PairFields(f.minute);
    PairFields(f.second);
  }

  /** Text of the layout's shape is the text of the fields read from it. */
  lemma TextOfLayout(s: string)
    requires Layout(s)
    ensures Text(FieldsIn(s)) == s
  {
    FourOfDigits(s);
    RestOfLayout(s);
    assert s == s[..4] + s[4..];
  }

  lemma RestOfLayout(s: string)
    requires Layout(s)
    ensures Rest(FieldsIn(s)) == s[4..]
  {
    PairOfDigits(s[5], s[6]);
    PairOfDigits(s[8], s[9]);
    PairOfDigits(s[11], s[12]);
    PairOfDigits(s[14], s[15]);
    PairOfDigits(s[17], s[18]);
    var r := Rest(FieldsIn(s));
    assert forall k :: 0 <= k < 16 ==> r[k] == s[k + 4];
  }

  /** Splitting a second count into days and seconds of the day. */
  lemma DaySplit(secs: nat, days: nat, sod: nat)
    requires sod < SecondsPerDay && secs == days * SecondsPerDay + sod
    ensures secs / SecondsPerDay == days && secs % SecondsPerDay == sod
  {
  }

  /** Splitting a second of the day into hours, minutes and seconds. */
  lemma ClockSplit(sod: nat, hour: nat, minute: nat, second: nat)
    requires hour < 24 && minute < 60 && second < 60 && sod == hour * 3600 + minute * 60 + second
    ensures sod < SecondsPerDay && sod / 3600 == hour && sod % 3600 / 60 == minute && sod % 60 == second
  {
  }

  lemma ClockJoin(sod: nat)
    requires sod < SecondsPerDay
    ensures sod / 3600 * 3600 + sod % 3600 / 60 * 60 + sod % 60 == sod
  {
  }

  /** The fields of a date and time's second count are those fields. */
  lemma FieldsOfSeconds(f: Fields)
    requires InRange(f)
    ensures FieldsOf(SecondsOf(f)) == f
  {
    var d := DateIn(f);
    var days := DaysOf(d);
    var sod := f.hour * 3600 + f.minute * 60 + f.second;
    var secs := SecondsOf(f);
    ClockSplit(sod, f.hour, f.minute, f.second);
    DaySplit(secs, days, sod);
    DateOfDaysOf(d);
    assert DateOf(secs / SecondsPerDay) == d;
  }

  /** The second count of the fields of a second count is that count. */
  lemma SecondsOfFields(secs: nat)
    ensures SecondsOf(FieldsOf(secs)) == secs
  {
    var f := FieldsOf(secs);
    assert DateIn(f) == DateOf(secs / SecondsPerDay);
    ClockJoin(secs % SecondsPerDay);
  }

  /** x < a * b means x / b < a. */
  lemma DivBelow(x: nat, a: nat, b: nat)
    requires b > 0 && x < a * b
    ensures x / b < a
  {
    assert x / b * b <= x;
  }

  /** Before MaxInstant the date has a four-digit year. */
  lemma YearBelow10000(t: Instant)
    requires t < MaxInstant
    ensures FieldsOf(t / NanosPerSecond).year < 10000
  {
    var limit := DaysBeforeYear(10000) * SecondsPerDay;
    assert MaxInstant == limit * NanosPerSecond;
    DivBelow(t, limit, NanosPerSecond);
    DivBelow(t / NanosPerSecond, DaysBeforeYear(10000), SecondsPerDay);
    var d := DateOf(t / NanosPerSecond / SecondsPerDay);
    if d.year >= 10000 {
      DaysBeforeYearMonotone(10000, d.year);
      assert false;
    }
  }

  lemma WholeSeconds(secs: nat)
    ensures secs * NanosPerSecond / NanosPerSecond == secs
  {
  }

  /** Value then Scan: formatting and parsing back gives the instant truncated to the second. */
  lemma FormatThenParse(t: Instant)
    requires t < MaxInstant
    ensures Parse(Format(t)) == Some(Truncate(t))
  {
    var secs := t / NanosPerSecond;
    var f := FieldsOf(secs);
    YearBelow10000(t);
    ParseText(f);
    SecondsOfFields(secs);
    TruncateToSeconds(t);
  }

  /** Text written from in-range fields with a four-digit year parses to their instant. */
  lemma ParseText(f: Fields)
    requires InRange(f) && Writable(f) && f.year < 10000
    ensures Parse(Text(f)) == Some(InstantOf(f))
  {
    TextFields(f);
  }

  lemma TruncateToSeconds(t: Instant)
    ensures Truncate(t) == t / NanosPerSecond * NanosPerSecond
  {
    TruncateUnique(t, t / NanosPerSecond * NanosPerSecond);
  }

  /** Scan then Value: a canonical text that parses is exactly the text its instant formats to. */
  lemma ParseThenFormat(s: string)
    requires Parse(s).Some?
    ensures Format(Parse(s).value) == s
  {
    var f := FieldsIn(s);
    assert Parse(s).value == SecondsOf(f) * NanosPerSecond;
    WholeSeconds(SecondsOf(f));
    FieldsOfSeconds(f);
    TextOfLayout(s);
  }

  /**
   * From year 10000 on, the year is written with five or more digits, which
   * the layout's four-digit year does not accept: the text does not parse.
   */
  lemma FormatBeyondYear9999(t: Instant)
    requires t >= MaxInstant
    ensures Parse(Format(t)) == None
  {
    var secs := t / NanosPerSecond;
    var days := secs / SecondsPerDay;
    var d := DateOf(days);
    assert days >= DaysBeforeYear(10000);
    if d.year < 10000 {
      DaysBeforeYearMonotone(d.year + 1, 10000);
      DaysBeforeYearStep(d.year);
      assert false;
    }
    DecimalLength(d.year, 4);
  }
}
