/**
 * Fetch timestamps: the writer stamps each record with Python's
 * `datetime.now().isoformat()`, and the loader parses it back with the
 * format "%Y-%m-%dT%H:%M:%S%.f". Polars infers the time unit of the
 * resulting `Datetime` from the format; for "%.f" that unit is microseconds,
 * so fraction digits past the sixth are read and then truncated.
 */
module Timestamps {
  import opened Optional

  datatype Date = Date(year: nat, month: nat, day: nat)
  datatype Time = Time(hour: nat, minute: nat, second: nat, microsecond: nat)
  datatype Timestamp = Timestamp(date: Date, time: Time)

  /** The time a date is cast to when it becomes a date-time. */
  const Midnight: Time := Time(0, 0, 0, 0)

  // ---------------------------------------------------------------------------
  // Calendar

  predicate IsLeapYear(y: nat) {
    (y % 4 == 0 && y % 100 != 0) || y % 400 == 0
  }

  function DaysInMonth(y: nat, m: nat): nat
    requires 1 <= m <= 12
  {
    if m == 2 then (if IsLeapYear(y) then 29 else 28)
    else if m == 4 || m == 6 || m == 9 || m == 11 then 30
    else 31
  }

  predicate ValidDate(d: Date) {
    1 <= d.month <= 12 && 1 <= d.day <= DaysInMonth(d.year, d.month)
  }

  predicate ValidTime(t: Time) {
    t.hour < 24 && t.minute < 60 && t.second < 60 && t.microsecond < 1_000_000
  }

  predicate Valid(ts: Timestamp) {
    ValidDate(ts.date) && ValidTime(ts.time)
  }

  // ---------------------------------------------------------------------------
  // Chronological order: lexicographic on the fields

  predicate DateBefore(a: Date, b: Date) {
    || a.year < b.year
    || (a.year == b.year && a.month < b.month)
    || (a.year == b.year && a.month == b.month && a.day < b.day)
  }

  predicate DateNotAfter(a: Date, b: Date) {
    DateBefore(a, b) || a == b
  }

  predicate TimeBefore(a: Time, b: Time) {
    || a.hour < b.hour
    || (a.hour == b.hour && a.minute < b.minute)
    || (a.hour == b.hour && a.minute == b.minute && a.second < b.second)
    || (a.hour == b.hour && a.minute == b.minute && a.second == b.second && a.microsecond < b.microsecond)
  }

  predicate Before(a: Timestamp, b: Timestamp) {
    DateBefore(a.date, b.date) || (a.date == b.date && TimeBefore(a.time, b.time))
  }

  predicate NotAfter(a: Timestamp, b: Timestamp) {
    Before(a, b) || a == b
  }

  /** NotAfter is a total order, and ordering by date is coarser than it. */
  lemma OrderFacts(a: Timestamp, b: Timestamp, c: Timestamp)
    ensures NotAfter(a, b) || NotAfter(b, a)
    ensures NotAfter(a, b) && NotAfter(b, a) ==> a == b
    ensures NotAfter(a, b) && NotAfter(b, c) ==> NotAfter(a, c)
    ensures NotAfter(a, b) ==> DateNotAfter(a.date, b.date)
    ensures Before(a, b) <==> !NotAfter(b, a)
  {
  }

  lemma DateOrderFacts(a: Date, b: Date, c: Date)
    ensures DateNotAfter(a, b) || DateNotAfter(b, a)
    ensures DateNotAfter(a, b) && DateNotAfter(b, a) ==> a == b
    ensures DateNotAfter(a, b) && DateNotAfter(b, c) ==> DateNotAfter(a, c)
    ensures DateNotAfter(a, b) <==> NotAfter(Timestamp(a, Midnight), Timestamp(b, Midnight))
  {
  }

  // ---------------------------------------------------------------------------
  // Decimal digits

  predicate IsDigit(c: char) {
    '0' <= c <= '9'
  }

  predicate AllDigits(s: string) {
    forall k :: 0 <= k < |s| ==> IsDigit(s[k])
  }

  function DigitValue(c: char): nat {
    if IsDigit(c) then (c as int) - ('0' as int) else 0
  }

  function DigitChar(d: nat): (c: char)
    requires d < 10
    ensures IsDigit(c) && DigitValue(c) == d
  {
    (('0' as int) + d) as char
  }

  /** The number a string of decimal digits denotes. */
  function Number(s: string): nat {
    if s == [] then 0 else Number(s[..|s| - 1]) * 10 + DigitValue(s[|s| - 1])
  }

  function Pow10(n: nat): (p: nat)
    ensures p >= 1
  {
    if n == 0 then 1 else 10 * Pow10(n - 1)
  }

  /** `n` written with exactly `width` digits, zero-padded on the left (printf's "%0*d"). */
  function Padded(n: nat, width: nat): (s: string)
    ensures |s| == width && AllDigits(s)
  {
    if width == 0 then [] else Padded(n / 10, width - 1) + [DigitChar(n % 10)]
  }

  lemma {:induction false} NumberOfPadded(n: nat, width: nat)
    requires n < Pow10(width)
    ensures Number(Padded(n, width)) == n
  {
    if width == 0 {
    } else {
      var s := Padded(n, width);
      assert s[..width - 1] == Padded(n / 10, width - 1);
      assert n / 10 < Pow10(width - 1);
      NumberOfPadded(n / 10, width - 1);
    }
  }

  // ---------------------------------------------------------------------------
  // Parsing "%Y-%m-%dT%H:%M:%S%.f"

  /**
   * The "%.f" part: nothing (zero nanoseconds), or a dot and one to nine
   * digits, read as a fraction of a second.
   */
  function ParseFraction(s: string): Option<nat> {
    if s == [] then Some(0)
    else if s[0] == '.' && 1 <= |s| - 1 <= 9 && AllDigits(s[1..]) then
      Some(Number(s[1..]) * Pow10(9 - (|s| - 1)))
    else None
  }

  /** The fixed-width "YYYY-MM-DDTHH:MM:SS" head. */
  predicate HasShape(s: string) {
    && |s| >= 19
    && AllDigits(s[0..4]) && s[4] == '-' && AllDigits(s[5..7]) && s[7] == '-'
    && AllDigits(s[8..10]) && s[10] == 'T'
    && AllDigits(s[11..13]) && s[13] == ':' && AllDigits(s[14..16]) && s[16] == ':'
    && AllDigits(s[17..19])
  }

  /** The loader's `str.strptime(pl.Datetime, format="%Y-%m-%dT%H:%M:%S%.f")`. */
  function Parse(s: string): (r: Option<Timestamp>)
    ensures r.Some? ==> Valid(r.value)
  {
    if !HasShape(s) then None
    else match ParseFraction(s[19..])
      case None => None
      case Some(ns) =>
        var ts := Timestamp(
          Date(Number(s[0..4]), Number(s[5..7]), Number(s[8..10])),
          Time(Number(s[11..13]), Number(s[14..16]), Number(s[17..19]), ns / 1000));
        if Valid(ts) then Some(ts) else None
  }

  // ---------------------------------------------------------------------------
  // Writing: Python's datetime.isoformat()

  /** A Python `datetime` as the fetcher obtains it from `datetime.now()`. */
  datatype DateTime = DateTime(year: nat, month: nat, day: nat,
                               hour: nat, minute: nat, second: nat, microsecond: nat)

  predicate ValidDateTime(dt: DateTime) {
    && 1 <= dt.year <= 9999
    && ValidDate(Date(dt.year, dt.month, dt.day))
    && dt.hour < 24 && dt.minute < 60 && dt.second < 60 && dt.microsecond < 1_000_000
  }

  /** The instant a `datetime` denotes. */
  function ToTimestamp(dt: DateTime): Timestamp {
    Timestamp(Date(dt.year, dt.month, dt.day),
              Time(dt.hour, dt.minute, dt.second, dt.microsecond))
  }

  /** "YYYY-MM-DDTHH:MM:SS", then ".ffffff" only when the microseconds are not zero. */
  function IsoFormat(dt: DateTime): string {
    Padded(dt.year, 4) + "-" + Padded(dt.month, 2) + "-" + Padded(dt.day, 2) + "T"
    + Padded(dt.hour, 2) + ":" + Padded(dt.minute, 2) + ":" + Padded(dt.second, 2)
    + (if dt.microsecond == 0 then "" else "." + Padded(dt.microsecond, 6))
  }

  /** Every timestamp the writer produces is read back as the instant it stands for. */
  lemma ParseIsoFormat(dt: DateTime)
    requires ValidDateTime(dt)
    ensures Parse(IsoFormat(dt)) == Some(ToTimestamp(dt))
  {
    var s := IsoFormat(dt);
    var frac := if dt.microsecond == 0 then "" else "." + Padded(dt.microsecond, 6);
    var head := Padded(dt.year, 4) + "-" + Padded(dt.month, 2) + "-" + Padded(dt.day, 2) + "T"
      + Padded(dt.hour, 2) + ":" + Padded(dt.minute, 2) + ":" + Padded(dt.second, 2);
    assert s == head + frac;
    assert |head| == 19;
    assert s[0..4] == Padded(dt.year, 4);
    assert s[5..7] == Padded(dt.month, 2);
    assert s[8..10] == Padded(dt.day, 2);
    assert s[11..13] == Padded(dt.hour, 2);
    assert s[14..16] == Padded(dt.minute, 2);
    assert s[17..19] == Padded(dt.second, 2);
    assert s[19..] == frac;
    assert HasShape(s);
    NumberOfPadded(dt.year, 4);
    NumberOfPadded(dt.month, 2);
    NumberOfPadded(dt.day, 2);
    NumberOfPadded(dt.hour, 2);
    NumberOfPadded(dt.minute, 2);
    NumberOfPadded(dt.second, 2);
    if dt.microsecond != 0 {
      assert frac[1..] == Padded(dt.microsecond, 6);
      NumberOfPadded(dt.microsecond, 6);
      assert ParseFraction(frac) == Some(dt.microsecond * 1000);
      assert (dt.microsecond * 1000) / 1000 == dt.microsecond;
    } else {
      assert ParseFraction(frac) == Some(0);
    }
  }

  /** A string that is not in the format, or names no calendar day, does not parse. */
  lemma ParseRejectsMalformed()
    ensures Parse("2024-06-01") == None
    ensures Parse("2024-02-30T10:00:00") == None
  {
    assert !HasShape("2024-06-01");
    var s := "2024-02-30T10:00:00";
    assert s[5..7] == [s[5], s[6]] == "02";
    assert s[8..10] == [s[8], s[9]] == "30";
    assert Number("02") == 2 by { assert "02"[..1] == "0"; assert ""[..0] == ""; }
    assert Number("30") == 30 by { assert "30"[..1] == "3"; assert "3"[..0] == ""; }
  }

  /**
   * Digits past the sixth are read but dropped: a written stamp with one
   * more fraction digit denotes the same microsecond.
   */
  lemma ParseTruncatesToMicroseconds(dt: DateTime, c: char)
    requires ValidDateTime(dt) && dt.microsecond != 0 && IsDigit(c)
    ensures Parse(IsoFormat(dt) + [c]) == Parse(IsoFormat(dt))
    ensures Parse(IsoFormat(dt) + [c]) == Some(ToTimestamp(dt))
  {
    ParseIsoFormat(dt);
    var s := IsoFormat(dt);
    var t := s + [c];
    var digits := Padded(dt.microsecond, 6);
    assert s[19..] == "." + digits;
    assert t[..|s|] == s;
    assert t[0..4] == s[0..4] && t[5..7] == s[5..7] && t[8..10] == s[8..10];
    assert t[11..13] == s[11..13] && t[14..16] == s[14..16] && t[17..19] == s[17..19];
    assert t[19..] == "." + digits + [c];
    assert t[19..][1..] == digits + [c];
    assert (digits + [c])[..6] == digits;
    NumberOfPadded(dt.microsecond, 6);
    assert Number(digits + [c]) == dt.microsecond * 10 + DigitValue(c);
    assert ParseFraction(t[19..]) == Some((dt.microsecond * 10 + DigitValue(c)) * 100);
    assert ((dt.microsecond * 10 + DigitValue(c)) * 100) / 1000 == dt.microsecond;
  }
}
