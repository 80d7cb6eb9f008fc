/**
 What the widget shows at a given time, and when it next has to be redrawn:
 the hour-to-image choice of `updateAppWidget` and the changeover choice of
 `scheduleNextUpdate` in TouhouWidgetProvider.kt.
 */
module Resolver {
  import opened Clock

  /** The three drawables: koishi_01, reimu_01 and doremy_01. */
  datatype Image = Koishi | Reimu | Doremy

  /** The `when (hour)` of `updateAppWidget`: 5..8 and 9..17 are closed ranges,
      every other value falls to the `else` branch. */
  function ImageForHour(hour: int): Image
  {
    if 5 <= hour <= 8 then Koishi
    else if 9 <= hour <= 17 then Reimu
    else Doremy
  }

  /** The image rendered at instant `t` (`calendar.get(HOUR_OF_DAY)` of `t`). */
  function ImageAt(t: Instant): Image
  {
    ImageForHour(t.hour)
  }

  // ---------------------------------------------------------------------------
  // The three half-open Morning/Day/Night windows that the hour ranges implement.

  datatype TimeWindow = Morning | Day | Night

  /** The window that begins where `w` ends. */
  function Succ(w: TimeWindow): TimeWindow
  {
    match w
    case Morning => Day
    case Day => Night
    case Night => Morning
  }

  /** Minute of the day at which a window begins: 05:00, 09:00 and 18:00. */
  function Start(w: TimeWindow): int
  {
    match w
    case Morning => 5 * 60
    case Day => 9 * 60
    case Night => 18 * 60
  }

  /** Whether minute-of-day `m` lies in `w`, which runs from its own start up to
      (excluding) the start of its successor, wrapping past midnight for Night. */
  predicate InWindow(w: TimeWindow, m: int)
  {
    var end := Start(Succ(w));
    if Start(w) < end then Start(w) <= m < end else Start(w) <= m || m < end
  }

  /** The picture that belongs to each window. */
  function Variant(w: TimeWindow): Image
  {
    match w
    case Morning => Koishi
    case Day => Reimu
    case Night => Doremy
  }

  /** A clock reading at which the window changes: 05:00, 09:00 or 18:00. */
  predicate IsChangeover(t: Instant)
  {
    t.minute == 0 && (t.hour == 5 || t.hour == 9 || t.hour == 18)
  }

  // ---------------------------------------------------------------------------
  // The next trigger.

  /** The `when` of `scheduleNextUpdate` over today's three changeover
      calendars: the first one `now` is strictly before, else the morning one
      moved to the next day. */
  function SelectTrigger(now: Instant, morningStart: Instant, dayStart: Instant, nightStart: Instant): Instant
  {
    if Before(now, morningStart) then morningStart
    else if Before(now, dayStart) then dayStart
    else if Before(now, nightStart) then nightStart
    else NextDay(morningStart)
  }

  /** The trigger as the source computes it: the changeover calendars are copies
      of `now` with only HOUR_OF_DAY and MINUTE set, so they keep `now`'s seconds
      and milliseconds. */
  function NextTrigger(now: Instant): (r: Instant)
    requires Valid(now)
    ensures Valid(r) && Before(now, r) && IsChangeover(r)
    ensures r.milli == now.milli
    ensures now.hour < 5 ==> r == Instant(now.day, 5, 0, now.milli)
    ensures 5 <= now.hour < 9 ==> r == Instant(now.day, 9, 0, now.milli)
    ensures 9 <= now.hour < 18 ==> r == Instant(now.day, 18, 0, now.milli)
    ensures 18 <= now.hour ==> r == Instant(now.day + 1, 5, 0, now.milli)
  {
    SelectTrigger(now, WithClock(now, 5, 0), WithClock(now, 9, 0), WithClock(now, 18, 0))
  }

  /** The trigger with the changeover calendars at the start of their minute
      (SECOND and MILLISECOND cleared as well): the instant the image changes. */
  function NextBoundary(now: Instant): (r: Instant)
    requires Valid(now)
    ensures Valid(r) && Before(now, r) && IsChangeover(r)
    ensures r.milli == 0
    ensures now.hour < 5 ==> r == Instant(now.day, 5, 0, 0)
    ensures 5 <= now.hour < 9 ==> r == Instant(now.day, 9, 0, 0)
    ensures 9 <= now.hour < 18 ==> r == Instant(now.day, 18, 0, 0)
    ensures 18 <= now.hour ==> r == Instant(now.day + 1, 5, 0, 0)
  {
    SelectTrigger(now, AtMinuteStart(now, 5, 0), AtMinuteStart(now, 9, 0), AtMinuteStart(now, 18, 0))
  }

  // ---------------------------------------------------------------------------
  // Image choice.

  /** The three windows cover every minute of the day, and no minute lies in two. */
  lemma WindowsPartition(m: int)
    requires 0 <= m < 1440
    ensures InWindow(Morning, m) || InWindow(Day, m) || InWindow(Night, m)
    ensures !(InWindow(Morning, m) && InWindow(Day, m))
    ensures !(InWindow(Day, m) && InWindow(Night, m))
    ensures !(InWindow(Night, m) && InWindow(Morning, m))
  {
  }

  /** The hour ranges of `updateAppWidget` are the windows: whichever window
      holds the clock reading, the image shown is that window's picture. */
  lemma ImageMatchesWindow(t: Instant, w: TimeWindow)
    requires Valid(t) && InWindow(w, MinuteOfDay(t))
    ensures ImageAt(t) == Variant(w)
  {
  }

  /** Every hour of the day gets exactly one image, and each image belongs to
      one closed range of hours. */
  lemma ImageForHourTotal(hour: int)
    requires 0 <= hour < 24
    ensures ImageForHour(hour) == Koishi <==> 5 <= hour <= 8
    ensures ImageForHour(hour) == Reimu <==> 9 <= hour <= 17
    ensures ImageForHour(hour) == Doremy <==> hour < 5 || 18 <= hour
  {
  }

  /** The image at the edges of each range. */
  lemma ImageAtRangeEdges()
    ensures ImageForHour(0) == Doremy && ImageForHour(4) == Doremy
    ensures ImageForHour(5) == Koishi && ImageForHour(8) == Koishi
    ensures ImageForHour(9) == Reimu && ImageForHour(17) == Reimu
    ensures ImageForHour(18) == Doremy && ImageForHour(23) == Doremy
  {
  }

  // ---------------------------------------------------------------------------
  // Next boundary.

  /** No changeover lies strictly between `now` and the boundary chosen. */
  lemma NextBoundaryIsEarliest(now: Instant, b: Instant)
    requires Valid(now) && Valid(b) && IsChangeover(b) && b.milli == 0
    requires Before(now, b)
    ensures !Before(b, NextBoundary(now))
  {
    BeforeIsLexicographic(now, b);
    BeforeIsLexicographic(b, NextBoundary(now));
  }

  /** From `now` up to (excluding) the next boundary the displayed image does not
      change. */
  lemma ImageConstantUntilBoundary(now: Instant)
    requires Valid(now)
    ensures forall t :: Valid(t) && !Before(t, now) && Before(t, NextBoundary(now)) ==>
      ImageAt(t) == ImageAt(now)
  {
    forall t | Valid(t) && !Before(t, now) && Before(t, NextBoundary(now))
      ensures ImageAt(t) == ImageAt(now)
    {
      BeforeIsLexicographic(t, now);
      BeforeIsLexicographic(t, NextBoundary(now));
    }
  }

  /** At the boundary the image differs from the one shown at `now`: the widget
      is woken exactly when its picture has to change. */
  lemma ImageChangesAtBoundary(now: Instant)
    requires Valid(now)
    ensures ImageAt(NextBoundary(now)) != ImageAt(now)
  {
  }

  /** The boundary is the start of the window that follows the one holding `now`. */
  lemma BoundaryStartsNextWindow(now: Instant, w: TimeWindow)
    requires Valid(now) && InWindow(w, MinuteOfDay(now))
    ensures MinuteOfDay(NextBoundary(now)) == Start(Succ(w))
    ensures InWindow(Succ(w), MinuteOfDay(NextBoundary(now)))
  {
  }

  // ---------------------------------------------------------------------------
  // The trigger as written against the boundary.

  /** The source's trigger is the boundary shifted by `now`'s sub-minute part. */
  lemma NextTriggerIsShiftedBoundary(now: Instant)
    requires Valid(now)
    ensures NextTrigger(now) == NextBoundary(now).(milli := now.milli)
    ensures Millis(NextTrigger(now)) == Millis(NextBoundary(now)) + now.milli
  {
  }

  /** Among the instants that share `now`'s seconds and milliseconds, the
      source's trigger is the earliest changeover after `now`. */
  lemma NextTriggerIsEarliest(now: Instant, b: Instant)
    requires Valid(now) && Valid(b) && IsChangeover(b) && b.milli == now.milli
    requires Before(now, b)
    ensures !Before(b, NextTrigger(now))
  {
    BeforeIsLexicographic(now, b);
    BeforeIsLexicographic(b, NextTrigger(now));
  }

  /** Whenever `now` is not at a whole minute, the source's trigger comes after
      the boundary, and between the two the widget still shows the old image. */
  lemma NextTriggerFiresLate(now: Instant)
    requires Valid(now) && now.milli > 0
    ensures Before(now, NextBoundary(now)) && Before(NextBoundary(now), NextTrigger(now))
    ensures ImageAt(NextBoundary(now)) != ImageAt(now)
  {
  }

  /** A woken widget at 04:59:30 is next woken at 05:00:30, while koishi is due
      at 05:00:00. */
  lemma NextTriggerLateExample()
    ensures NextTrigger(Instant(0, 4, 59, 30_000)) == Instant(0, 5, 0, 30_000)
    ensures NextBoundary(Instant(0, 4, 59, 30_000)) == Instant(0, 5, 0, 0)
    ensures ImageAt(Instant(0, 4, 59, 30_000)) == Doremy && ImageAt(Instant(0, 5, 0, 0)) == Koishi
  {
  }

  /** The day-rollover cases: before 05:00 on day D and at or after 18:00. */
  lemma NextBoundaryRollover(d: int)
    ensures NextBoundary(Instant(d, 23, 30, 0)) == Instant(d + 1, 5, 0, 0)
    ensures NextBoundary(Instant(d, 18, 0, 0)) == Instant(d + 1, 5, 0, 0)
    ensures NextBoundary(Instant(d, 4, 0, 0)) == Instant(d, 5, 0, 0)
    ensures NextBoundary(Instant(d, 0, 0, 0)) == Instant(d, 5, 0, 0)
  {
  }
}
