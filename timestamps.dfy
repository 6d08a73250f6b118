/** Python `datetime` values as the archive returns them, and their ordering.

    The calendar part of a date is represented by its proleptic Gregorian
    ordinal (what `date.toordinal()` returns: 1 for 0001-01-01), so that
    subtracting two datetimes is integer arithmetic, as it is in Python. */
module Timestamps {

  /** `date(1970, 1, 1).toordinal()` */
  const EpochOrdinal: int := 719163
  /** `date.max.toordinal()`, the ordinal of 9999-12-31 */
  const MaxOrdinal: int := 3652059

  datatype DateTime = DateTime(ordinal: int, hour: int, minute: int, second: int, microsecond: int)

  /** The range of fields a Python datetime can hold. */
  ghost predicate Valid(t: DateTime) {
    && 1 <= t.ordinal <= MaxOrdinal
    && 0 <= t.hour < 24
    && 0 <= t.minute < 60
    && 0 <= t.second < 60
    && 0 <= t.microsecond < 1000000
  }

  /** Python's `a < b` on datetimes: field by field, most significant first. */
  predicate Before(a: DateTime, b: DateTime): (r: bool)
    ensures a.ordinal < b.ordinal ==> r
    ensures r ==> a.ordinal <= b.ordinal
    ensures r ==> a != b
  {
    if a.ordinal != b.ordinal then a.ordinal < b.ordinal
    else if a.hour != b.hour then a.hour < b.hour
    else if a.minute != b.minute then a.minute < b.minute
    else if a.second != b.second then a.second < b.second
    else a.microsecond < b.microsecond
  }

  /** `Before` is a strict total order: exactly one of a < b, a == b, b < a. */
  lemma BeforeTrichotomy(a: DateTime, b: DateTime)
    ensures Before(a, b) || a == b || Before(b, a)
    ensures !(Before(a, b) && Before(b, a))
    ensures !Before(a, a)
  {
  }

  lemma BeforeTransitive(a: DateTime, b: DateTime, c: DateTime)
    requires Before(a, b) && Before(b, c)
    ensures Before(a, c)
  {
  }

  /** Seconds of the day, as `timedelta` normalises `hour`, `minute`, `second`. */
  function SecondOfDay(t: DateTime): int {
    t.hour * 3600 + t.minute * 60 + t.second
  }

  /** `t - datetime(1970, 1, 1)` as a whole number of microseconds:
      `(days * 86400 + seconds) * 10**6 + microseconds`, the numerator of
      `timedelta.total_seconds()`. */
  function MicrosSinceEpoch(t: DateTime): (m: int)
    ensures Valid(t) ==> m / 1000000 == (t.ordinal - EpochOrdinal) * 86400 + SecondOfDay(t)
    ensures Valid(t) ==> m % 1000000 == t.microsecond
  {
    var whole := (t.ordinal - EpochOrdinal) * 86400 + SecondOfDay(t);
    DivModUnique(whole, t.microsecond);
    whole * 1000000 + t.microsecond
  }

  /** Euclidean division by 10**6 splits whole seconds from microseconds. */
  lemma DivModUnique(q: int, u: int)
    ensures 0 <= u < 1000000 ==> (q * 1000000 + u) / 1000000 == q
    ensures 0 <= u < 1000000 ==> (q * 1000000 + u) % 1000000 == u
  {
  }

  /** A valid datetime's second of the day is below 86400. */
  lemma SecondOfDayBounds(t: DateTime)
    requires Valid(t)
    ensures 0 <= SecondOfDay(t) < 86400
  {
  }

  /** The elapsed-time count is strictly monotone in chronological order,
      so converting timestamps to numbers keeps their order. */
  lemma MicrosMonotone(a: DateTime, b: DateTime)
    requires Valid(a) && Valid(b)
    ensures Before(a, b) <==> MicrosSinceEpoch(a) < MicrosSinceEpoch(b)
  {
    SecondOfDayBounds(a);
    SecondOfDayBounds(b);
    var da, db := a.ordinal - EpochOrdinal, b.ordinal - EpochOrdinal;
    var sa, sb := da * 86400 + SecondOfDay(a), db * 86400 + SecondOfDay(b);
    if a.ordinal != b.ordinal {
      assert (a.ordinal < b.ordinal) <==> sa < sb;
    } else if a.hour != b.hour {
      assert (a.hour < b.hour) <==> sa < sb;
    }
    assert Before(a, b) <==> sa < sb || (sa == sb && a.microsecond < b.microsecond);
  }
}
