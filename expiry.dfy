/**
  The expiry calculator: `calculate_days_left` turns a token's `expires_at`
  into whole days left before it expires, and `get_alert_level` turns that
  count into a severity tag.
 */
module Expiry {

  import opened Wrappers
  import opened Calendar
  import opened DateParse

  const MicrosPerDay := 86_400_000_000

  /**
    A naive UTC `datetime` as `datetime.utcnow()` returns it: a calendar
    date and the microseconds elapsed since that day's midnight.
   */
  datatype DateTime = DateTime(date: Date, micros: int)

  predicate ValidDateTime(t: DateTime) {
    ValidDate(t.date) && 0 <= t.micros < MicrosPerDay
  }

  /** The JSON value of a token's `expires_at`: a string, or anything else (`null`, a number). */
  datatype RawExpiry = Text(text: string) | NotText

  /**
    `calculate_days_left(expiry_date)` at the instant `now`: `None` when the
    value has no `strip` method or the stripped text is not a date, and
    otherwise `(exp - now).days`, the floor of the time left counted in days
    (Dafny's `/` by a positive divisor rounds down, as `timedelta` does).
    So at midnight the result is the number of calendar days between the
    two dates, and at any later time of day it is one less.
   */
  function DaysLeft(raw: RawExpiry, now: DateTime): (r: Option<int>)
    requires ValidDateTime(now)
    ensures r.Some? <==> raw.Text? && ParseDate(Strip(raw.text)).Some?
    ensures r.Some? ==>
      r.value == Ordinal(ParseDate(Strip(raw.text)).value) - Ordinal(now.date)
                 - (if now.micros == 0 then 0 else 1)
  {
    match raw
    case NotText => None
    case Text(text) => DaysUntil(ParseDate(Strip(text)), now)
  }

  /** The count for a parsed expiry date, or `None` when parsing failed. */
  function DaysUntil(expiry: Option<Date>, now: DateTime): (r: Option<int>)
    requires ValidDateTime(now) && (expiry.Some? ==> ValidDate(expiry.value))
    ensures r.Some? <==> expiry.Some?
    ensures r.Some? ==>
      r.value == Ordinal(expiry.value) - Ordinal(now.date) - (if now.micros == 0 then 0 else 1)
  {
    match expiry
    case None => None
    case Some(exp) => Some(TimedeltaDays(Ordinal(exp), now))
  }

  /**
    `(exp - now).days` for `exp` at midnight of the day numbered `expOrdinal`:
    the time between them in microseconds, divided by a day's length and
    rounded down, as `timedelta` normalises it.
   */
  function TimedeltaDays(expOrdinal: int, now: DateTime): (days: int)
    requires ValidDateTime(now)
    ensures days == expOrdinal - Ordinal(now.date) - (if now.micros == 0 then 0 else 1)
  {
    var micros := expOrdinal * MicrosPerDay - (Ordinal(now.date) * MicrosPerDay + now.micros);
    FloorDays(expOrdinal - Ordinal(now.date), now.micros);
    micros / MicrosPerDay
  }

  /** A whole number of days minus part of a day rounds down to one day fewer. */
  lemma FloorDays(days: int, micros: int)
    requires 0 <= micros < MicrosPerDay
    ensures (days * MicrosPerDay - micros) / MicrosPerDay
            == days - (if micros == 0 then 0 else 1)
  {
    if micros == 0 {
      DivModUnique(days * MicrosPerDay, MicrosPerDay, days, 0);
    } else {
      assert days * MicrosPerDay - micros == MicrosPerDay * (days - 1) + (MicrosPerDay - micros);
      DivModUnique(days * MicrosPerDay - micros, MicrosPerDay, days - 1, MicrosPerDay - micros);
    }
  }

  /** Surrounding whitespace in `expires_at` does not change the result. */
  lemma DaysLeftIgnoresSpace(w1: string, s: string, w2: string, now: DateTime)
    requires ValidDateTime(now) && AllSpace(w1) && AllSpace(w2)
    ensures DaysLeft(Text(w1 + s + w2), now) == DaysLeft(Text(s), now)
  {
    StripIgnoresSurroundingSpace(w1, s, w2);
  }

  /** An ISO date has no surrounding whitespace to strip. */
  lemma StripUnspaced(s: string)
    requires s != [] && !IsSpace(s[0]) && !IsSpace(s[|s| - 1])
    ensures Strip(s) == s
  {
  }

  /** The count for an expiry written the way the API writes it. */
  lemma DaysLeftFormatted(exp: Date, now: DateTime)
    requires ValidDateTime(now) && ValidDate(exp)
    ensures DaysLeft(Text(Format(exp)), now)
            == Some(Ordinal(exp) - Ordinal(now.date) - (if now.micros == 0 then 0 else 1))
  {
    var s := Format(exp);
    assert ParseDate(Strip(s)) == Some(exp) by {
      StripUnspaced(s);
      ParseFormat(exp);
    }
    DaysLeftOfDate(s, exp, now);
  }

  lemma DaysLeftOfDate(s: string, exp: Date, now: DateTime)
    requires ValidDateTime(now) && ValidDate(exp)
    requires ParseDate(Strip(s)) == Some(exp)
    ensures DaysLeft(Text(s), now)
            == Some(Ordinal(exp) - Ordinal(now.date) - (if now.micros == 0 then 0 else 1))
  {
    assert DaysLeft(Text(s), now) == DaysUntil(Some(exp), now);
    DaysUntilDate(exp, now);
  }

  lemma DaysUntilDate(exp: Date, now: DateTime)
    requires ValidDateTime(now) && ValidDate(exp)
    ensures DaysUntil(Some(exp), now)
            == Some(Ordinal(exp) - Ordinal(now.date) - (if now.micros == 0 then 0 else 1))
  {
    var r := DaysUntil(Some(exp), now);
    assert r.Some?;
  }

  /**
    A token expiring one day later has one more day left, whatever the time
    of day: counts step by whole days.
   */
  lemma DaysLeftNextDay(s: string, sNext: string, exp: Date, now: DateTime)
    requires ValidDateTime(now) && ValidDate(exp)
    requires exp.year < MaxYear || exp.month < 12 || exp.day < 31
    requires ParseDate(Strip(s)) == Some(exp)
    requires ParseDate(Strip(sNext)) == Some(NextDay(exp))
    ensures DaysLeft(Text(s), now).Some? && DaysLeft(Text(sNext), now).Some?
    ensures DaysLeft(Text(sNext), now).value == DaysLeft(Text(s), now).value + 1
  {
    DaysLeftOfDate(s, exp, now);
    DaysLeftOfDate(sNext, NextDay(exp), now);
    OrdinalNextDay(exp);
  }

  /** A token read at midnight five days before it expires has five days left. */
  lemma DaysLeftExample()
    ensures DaysLeft(Text("2024-01-10"), DateTime(Date(2024, 1, 5), 0)) == Some(5)
    ensures DaysLeft(Text("2024-01-10"), DateTime(Date(2024, 1, 5), 1)) == Some(4)
  {
    var exp := Date(2024, 1, 10);
    assert Format(exp) == "2024-01-10";
    DaysLeftFormatted(exp, DateTime(Date(2024, 1, 5), 0));
    DaysLeftFormatted(exp, DateTime(Date(2024, 1, 5), 1));
  }

  /** Text that is not a date, and a value that is not text, give no count. */
  lemma DaysLeftFailures(now: DateTime)
    requires ValidDateTime(now)
    ensures DaysLeft(Text("not-a-date"), now) == None
    ensures DaysLeft(Text("2023-02-29"), now) == None
    ensures DaysLeft(NotText, now) == None
  {
    assert ParseDate(Strip("not-a-date")) == None by {
      StripUnspaced("not-a-date");
      ParseRefuses();
    }
    assert ParseDate(Strip("2023-02-29")) == None by {
      StripUnspaced("2023-02-29");
      ParseRefuses();
    }
  }

  // ---------------------------------------------------------------------------
  // get_alert_level

  datatype AlertLevel = Critical | Warning | Alert | Info | Unknown {

    /** The label value the exporter publishes. */
    function Name(): string {
      match this
      case Critical => "CRITICAL"
      case Warning => "WARNING"
      case Alert => "ALERT"
      case Info => "INFO"
      case Unknown => "UNKNOWN"
    }

    /** How urgent the tier is: higher is more severe. */
    function Severity(): nat {
      match this
      case Critical => 3
      case Warning => 2
      case Alert => 1
      case Info => 0
      case Unknown => 0
    }
  }

  /**
    `get_alert_level(days_left)`: `UNKNOWN` exactly for a missing count, and
    for a count, the tier whose range contains it, each bound belonging to
    the more severe tier.
   */
  function AlertLevelOf(days: Option<int>): (level: AlertLevel)
    ensures level == Unknown <==> days.None?
  {
    if days.None? then Unknown
    else if days.value <= 5 then Critical
    else if days.value <= 30 then Warning
    else if days.value <= 60 then Alert
    else Info
  }

  /** The four tiers partition the integers at 5, 30 and 60, bounds inclusive below. */
  lemma AlertLevelThresholds(d: int)
    ensures AlertLevelOf(Some(d)) == Critical <==> d <= 5
    ensures AlertLevelOf(Some(d)) == Warning <==> 5 < d <= 30
    ensures AlertLevelOf(Some(d)) == Alert <==> 30 < d <= 60
    ensures AlertLevelOf(Some(d)) == Info <==> 60 < d
    ensures AlertLevelOf(Some(d)) != Unknown
  {
  }

  /** More days left never means a more severe tier. */
  lemma SeverityNonIncreasing(d1: int, d2: int)
    requires d1 <= d2
    ensures AlertLevelOf(Some(d2)).Severity() <= AlertLevelOf(Some(d1)).Severity()
  {
  }

  /** The published tag names tell the tiers apart. */
  lemma AlertLevelNamesDistinct(a: AlertLevel, b: AlertLevel)
    ensures a.Name() == b.Name() <==> a == b
  {
  }
}
