/**
 * Calendar date-times as `DateTimeImmutable` holds them and as the expenses
 * table stores them (text of the form 'Y-m-d H:i:s').
 */
module Calendar {
  import opened Decimal

  datatype DateTime = DateTime(year: int, month: int, day: int, hour: int, minute: int, second: int)

  /** Component ranges of a date-time; years are those SQLite's date functions accept. */
  predicate WellFormed(d: DateTime) {
    && 0 <= d.year <= 9999
    && 1 <= d.month <= 12
    && 1 <= d.day <= 31
    && 0 <= d.hour < 24
    && 0 <= d.minute < 60
    && 0 <= d.second < 60
  }

  type Date = d: DateTime | WellFormed(d) witness DateTime(1970, 1, 1, 0, 0, 0)

  /** Position of a date-time on the time line, in seconds of a 12 x 31-day calendar. */
  function Rank(d: Date): int {
    ((((d.year * 12 + (d.month - 1)) * 31 + (d.day - 1)) * 24 + d.hour) * 60 + d.minute) * 60 + d.second
  }

  /** Chronological order as PHP compares date-times: component by component. */
  predicate EarlierThan(a: Date, b: Date) {
    || a.year < b.year
    || (a.year == b.year && a.month < b.month)
    || (a.year == b.year && a.month == b.month && a.day < b.day)
    || (a.year == b.year && a.month == b.month && a.day == b.day && a.hour < b.hour)
    || (a.year == b.year && a.month == b.month && a.day == b.day && a.hour == b.hour && a.minute < b.minute)
    || (a.year == b.year && a.month == b.month && a.day == b.day && a.hour == b.hour && a.minute == b.minute
        && a.second < b.second)
  }

  /** A higher digit that is larger outweighs any lower digit. */
  lemma HigherDigitWins(hi: int, lo: int, hi': int, lo': int, base: nat)
    requires 0 <= lo < base && 0 <= lo' < base && hi < hi'
    ensures hi * base + lo < hi' * base + lo'
  {
    var k: nat := hi' - hi - 1;
    assert k * base >= 0;
    assert (k + 1) * base == k * base + base;
    assert hi' * base == hi * base + (k + 1) * base;
  }

  /** One digit of a mixed-radix numeral decides the order when the higher digits agree. */
  lemma MixedRadix(hi: int, lo: int, hi': int, lo': int, base: nat)
    requires 0 <= lo < base && 0 <= lo' < base
    ensures hi * base + lo < hi' * base + lo' <==> hi < hi' || (hi == hi' && lo < lo')
    ensures hi * base + lo == hi' * base + lo' <==> hi == hi' && lo == lo'
  {
    if hi < hi' {
      HigherDigitWins(hi, lo, hi', lo', base);
    } else if hi > hi' {
      HigherDigitWins(hi', lo', hi, lo, base);
    }
  }

  /** `Rank` orders date-times chronologically and tells distinct ones apart. */
  lemma RankIsChronological(a: Date, b: Date)
    ensures Rank(a) < Rank(b) <==> EarlierThan(a, b)
    ensures Rank(a) == Rank(b) <==> a == b
  {
    MixedRadix(a.year, a.month - 1, b.year, b.month - 1, 12);
    var ym, ym' := a.year * 12 + (a.month - 1), b.year * 12 + (b.month - 1);
    MixedRadix(ym, a.day - 1, ym', b.day - 1, 31);
    var ymd, ymd' := ym * 31 + (a.day - 1), ym' * 31 + (b.day - 1);
    MixedRadix(ymd, a.hour, ymd', b.hour, 24);
    var ymdh, ymdh' := ymd * 24 + a.hour, ymd' * 24 + b.hour;
    MixedRadix(ymdh, a.minute, ymdh', b.minute, 60);
    var ymdhm, ymdhm' := ymdh * 60 + a.minute, ymdh' * 60 + b.minute;
    MixedRadix(ymdhm, a.second, ymdhm', b.second, 60);
  }

  /** `strftime('%Y', date)`: the four-digit year. */
  function StrftimeYear(d: Date): string {
    Pad(d.year, 4)
  }

  /** `strftime('%m', date)`: the two-digit month. */
  function StrftimeMonth(d: Date): string {
    Pad(d.month, 2)
  }

  /** `format('Y-m-d')`. */
  function DayText(d: Date): string {
    Pad(d.year, 4) + "-" + Pad(d.month, 2) + "-" + Pad(d.day, 2)
  }

  /** `format('Y-m-d H:i:s')`: the text stored in the `date` column. */
  function StampText(d: Date): string {
    DayText(d) + " " + Pad(d.hour, 2) + ":" + Pad(d.minute, 2) + ":" + Pad(d.second, 2)
  }
}
