/**
 The wall clock as the widget provider's `java.util.Calendar` values see it:
 a local day count and, within the day, HOUR_OF_DAY, MINUTE and the sub-minute
 part (SECOND and MILLISECOND folded into one millisecond count).
 Time zones and daylight saving are not modelled: every day is 24 hours long.
 */
module Clock {

  /** A local instant. `day` counts days from an arbitrary origin; `milli` is
      SECOND * 1000 + MILLISECOND. */
  datatype Instant = Instant(day: int, hour: int, minute: int, milli: int)

  /** The ranges a Calendar keeps its fields in. */
  predicate Valid(t: Instant)
  {
    0 <= t.hour < 24 && 0 <= t.minute < 60 && 0 <= t.milli < 60_000
  }

  /** `timeInMillis`, counted from the start of day 0. */
  function Millis(t: Instant): int
  {
    t.day * 86_400_000 + t.hour * 3_600_000 + t.minute * 60_000 + t.milli
  }

  /** `Calendar.before`: compares the two instants' `timeInMillis`. */
  predicate Before(a: Instant, b: Instant)
  {
    Millis(a) < Millis(b)
  }

  /** Minutes since midnight of the instant's clock reading. */
  function MinuteOfDay(t: Instant): (m: int)
    requires Valid(t)
    ensures 0 <= m < 1440
  {
    t.hour * 60 + t.minute
  }

  /** Field-by-field comparison, most significant field first. */
  predicate LexBefore(a: Instant, b: Instant)
  {
    a.day < b.day ||
    (a.day == b.day && (a.hour < b.hour ||
    (a.hour == b.hour && (a.minute < b.minute ||
    (a.minute == b.minute && a.milli < b.milli)))))
  }

  /** A calendar holding `t` after `set(HOUR_OF_DAY, hour); set(MINUTE, minute)`:
      the day, SECOND and MILLISECOND are those of `t`. */
  function WithClock(t: Instant, hour: int, minute: int): (r: Instant)
    requires Valid(t) && 0 <= hour < 24 && 0 <= minute < 60
    ensures Valid(r) && r.day == t.day && r.milli == t.milli
    ensures MinuteOfDay(r) == hour * 60 + minute
  {
    t.(hour := hour, minute := minute)
  }

  /** A calendar holding `t` after HOUR_OF_DAY and MINUTE are set and SECOND and
      MILLISECOND are cleared: the start of that minute on `t`'s day. */
  function AtMinuteStart(t: Instant, hour: int, minute: int): (r: Instant)
    requires Valid(t) && 0 <= hour < 24 && 0 <= minute < 60
    ensures Valid(r) && r.day == t.day && r.milli == 0
    ensures MinuteOfDay(r) == hour * 60 + minute
  {
    Instant(t.day, hour, minute, 0)
  }

  /** `add(DAY_OF_YEAR, 1)` without daylight-saving shifts: the same clock
      reading one day later. */
  function NextDay(t: Instant): (r: Instant)
    ensures Millis(r) == Millis(t) + 86_400_000
    ensures Valid(t) ==> Valid(r) && MinuteOfDay(r) == MinuteOfDay(t) && r.milli == t.milli
  {
    t.(day := t.day + 1)
  }

  /** On valid instants, comparing milliseconds is comparing the fields in order,
      so `Before` is a strict total order with no two readings at the same time. */
  lemma BeforeIsLexicographic(a: Instant, b: Instant)
    requires Valid(a) && Valid(b)
    ensures Before(a, b) <==> LexBefore(a, b)
    ensures Millis(a) == Millis(b) <==> a == b
  {
  }

  /** The calendar fields of a `timeInMillis` value (the reading of an alarm's
      trigger time). */
  function FromMillis(m: int): (t: Instant)
    ensures Valid(t)
  {
    var inDay := m % 86_400_000;
    var inHour := inDay % 3_600_000;
    Instant(m / 86_400_000, inDay / 3_600_000, inHour / 60_000, inHour % 60_000)
  }

  /** Every millisecond value is the reading of some calendar. */
  lemma MillisOfFromMillis(m: int)
    ensures Millis(FromMillis(m)) == m
  {
    var inDay := m % 86_400_000;
    var inHour := inDay % 3_600_000;
    assert m == m / 86_400_000 * 86_400_000 + inDay;
    assert inDay == inDay / 3_600_000 * 3_600_000 + inHour;
    assert inHour == inHour / 60_000 * 60_000 + inHour % 60_000;
  }

  /** Reading back the milliseconds of a valid instant gives that instant. */
  lemma FromMillisOfMillis(t: Instant)
    requires Valid(t)
    ensures FromMillis(Millis(t)) == t
  {
    var inDay := t.hour * 3_600_000 + t.minute * 60_000 + t.milli;
    var inHour := t.minute * 60_000 + t.milli;
    DivModUnique(Millis(t), 86_400_000, t.day, inDay);
    DivModUnique(inDay, 3_600_000, t.hour, inHour);
    DivModUnique(inHour, 60_000, t.minute, t.milli);
  }

  /** Quotient and remainder are the only such pair. */
  lemma DivModUnique(m: int, d: int, q: int, r: int)
    requires d > 0 && m == q * d + r && 0 <= r < d
    ensures m / d == q && m % d == r
  {
    var q', r' := m / d, m % d;
    assert m == q' * d + r' && 0 <= r' < d;
    assert (q - q') * d == r' - r;
    if q > q' {
      MulAtLeast(q - q', d);
    } else if q < q' {
      MulAtLeast(q' - q, d);
    }
  }

  lemma MulAtLeast(k: int, d: int)
    requires k >= 1 && d > 0
    ensures k * d >= d
  {
  }
}
