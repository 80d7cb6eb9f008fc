# Touhou time-of-day widget scheduler

A Dafny model of the home-screen widget provider `TouhouWidgetProvider`. The
widget shows one of three pictures, chosen by the hour: koishi from 05:00,
reimu from 09:00 and doremy from 18:00 until 05:00. It also keeps a single
process-wide alarm that wakes the provider when the picture next has to change.
The model has three modules:

- `Clock` (clock.dfy): local instants as a day count plus HOUR_OF_DAY, MINUTE
  and the sub-minute part. It also gives the millisecond value a Calendar
  reports, `Calendar.before`, and the calendar edits the provider makes
  (`set` of hour and minute, `add(DAY_OF_YEAR, 1)`).
- `Resolver` (resolver.dfy): the hour-to-image `when` of `updateAppWidget`,
  the three Morning/Day/Night windows it implements, and the changeover
  `when` of `scheduleNextUpdate`. The changeover is given both as the source
  writes it (`NextTrigger`) and with the sub-minute part cleared
  (`NextBoundary`, see Findings).
- `Scheduler` (scheduler.dfy): the provider's state. It holds one alarm slot
  (`Option<Alarm>`, standing for the single broadcast PendingIntent with
  request code 0 and FLAG_UPDATE_CURRENT) and a map from widget id to the
  image last pushed to it. This state is described twice. The functions
  `AfterUpdate`, `AfterSchedule`, `AfterDisabled` and `AfterReceive` give it
  as values. The class `WidgetProvider` holds the same platform state as
  fields (the Kotlin class itself has none), and its `OnUpdate`, `OnEnabled`,
  `OnDisabled` and `OnReceive` methods update those fields in place. Each method's contract ties the new state to the matching
  function.

Inputs that the platform supplies are parameters:
- the current instant `now`;
- the widget ids returned by `getAppWidgetIds`, as a sequence;
- the broadcast's action, which is `None` when the intent carries none;
- `Build.VERSION.SDK_INT`;
- the result of `canScheduleExactAlarms()`.

Every `Calendar.getInstance()` made in a single callback is taken to read the
same `now`. An alarm is recorded with its RTC_WAKEUP time in milliseconds and
with whether it was set with `setExactAndAllowWhileIdle` or with `set`.

## Model

| member | source | states |
|---|---|---|
| Clock.Millis | app/src/main/java/com/example/phoneviewing/TouhouWidgetProvider.kt:75-80 | `timeInMillis` of a calendar, counted from the start of day 0; read back by `FromMillis` (`FromMillisOfMillis`, `MillisOfFromMillis`) |
| Clock.Before | app/src/main/java/com/example/phoneviewing/TouhouWidgetProvider.kt:75-77 | `Calendar.before`: strictly earlier `timeInMillis`; on valid instants the field-by-field order with no ties (`BeforeIsLexicographic`) |
| Resolver.ImageForHour | app/src/main/java/com/example/phoneviewing/TouhouWidgetProvider.kt:113-117 | the closed ranges 5..8 koishi, 9..17 reimu, every other hour doremy; pinned by `ImageForHourTotal` and `ImageAtRangeEdges` |
| Resolver.ImageAt | app/src/main/java/com/example/phoneviewing/TouhouWidgetProvider.kt:110-117 | the image drawn at an instant is the one of its HOUR_OF_DAY; it is the picture of the window holding the instant (`ImageMatchesWindow`) |
| Resolver.SelectTrigger | app/src/main/java/com/example/phoneviewing/TouhouWidgetProvider.kt:74-83 | the first of the three changeover calendars `now` is strictly before, else the morning one a day later; its two instances are specified by `NextTrigger` and `NextBoundary` |
| Scheduler.ExactDenied | app/src/main/java/com/example/phoneviewing/TouhouWidgetProvider.kt:85 | exact scheduling is refused exactly from release S on when `canScheduleExactAlarms()` is false; `DeniedExactKeepsTriggerTime` states what changes then |
| Scheduler.IsRefreshAction | app/src/main/java/com/example/phoneviewing/TouhouWidgetProvider.kt:47 | only AUTO_UPDATE and BOOT_COMPLETED are handled; `AfterReceive` leaves the state unchanged for every other action |
| Clock.WithClock | app/src/main/java/com/example/phoneviewing/TouhouWidgetProvider.kt:69-71 | setting HOUR_OF_DAY and MINUTE on a copy of `now` keeps the day and the seconds/milliseconds, and gives the requested clock reading |
| Clock.AtMinuteStart | app/src/main/java/com/example/phoneviewing/TouhouWidgetProvider.kt:69-71 | the corrected changeover calendar: same day, requested clock reading, sub-minute part zero |
| Clock.NextDay | app/src/main/java/com/example/phoneviewing/TouhouWidgetProvider.kt:80 | `add(DAY_OF_YEAR, 1)` moves the instant exactly 24 hours later and keeps its clock reading |
| Clock.BeforeIsLexicographic | app/src/main/java/com/example/phoneviewing/TouhouWidgetProvider.kt:75-77 | `before` on millisecond values is the field-by-field order of day, hour, minute, sub-minute; equal milliseconds means the same instant |
| Clock.FromMillis | app/src/main/java/com/example/phoneviewing/TouhouWidgetProvider.kt:74-83 | the calendar fields read from any `timeInMillis` value are in range |
| Clock.MillisOfFromMillis | app/src/main/java/com/example/phoneviewing/TouhouWidgetProvider.kt:74-83 | the fields read from a millisecond value give that value back |
| Clock.FromMillisOfMillis | app/src/main/java/com/example/phoneviewing/TouhouWidgetProvider.kt:74-83 | a valid calendar's `timeInMillis`, read back, is that calendar: the two conversions are inverse |
| Resolver.ImageForHourTotal | app/src/main/java/com/example/phoneviewing/TouhouWidgetProvider.kt:113-117 | for every hour 0..23 exactly one image is chosen: koishi iff 5..8, reimu iff 9..17, doremy iff before 5 or from 18 |
| Resolver.ImageAtRangeEdges | app/src/main/java/com/example/phoneviewing/TouhouWidgetProvider.kt:113-117 | the image flips exactly at the range edges: 4 doremy, 5 and 8 koishi, 9 and 17 reimu, 18 and 23 doremy |
| Resolver.WindowsPartition | app/src/main/java/com/example/phoneviewing/TouhouWidgetProvider.kt:113-117 | the windows [05:00,09:00), [09:00,18:00) and [18:00,05:00) cover every minute of the day and are pairwise disjoint |
| Resolver.ImageMatchesWindow | app/src/main/java/com/example/phoneviewing/TouhouWidgetProvider.kt:113-117 | the hour-based choice agrees with the window description: the image shown is the picture of the window that holds the clock reading |
| Resolver.NextTrigger | app/src/main/java/com/example/phoneviewing/TouhouWidgetProvider.kt:66-83 | the source's trigger is strictly after `now`, at 05:00, 09:00 or 18:00 with `now`'s seconds; before 5 it is 05:00 today, 5..8 09:00, 9..17 18:00, from 18 05:00 tomorrow |
| Resolver.NextTriggerIsEarliest | app/src/main/java/com/example/phoneviewing/TouhouWidgetProvider.kt:74-83 | no changeover with `now`'s seconds lies strictly between `now` and the source's trigger |
| Resolver.NextTriggerIsShiftedBoundary | app/src/main/java/com/example/phoneviewing/TouhouWidgetProvider.kt:69-71 | the source's trigger is the true boundary moved later by `now`'s sub-minute part |
| Resolver.NextTriggerFiresLate | app/src/main/java/com/example/phoneviewing/TouhouWidgetProvider.kt:69-71 | whenever `now` is not on a whole minute, the image changes strictly before the source's trigger fires |
| Resolver.NextTriggerLateExample | app/src/main/java/com/example/phoneviewing/TouhouWidgetProvider.kt:69-75 | a wake at 04:59:30 sets the trigger to 05:00:30 although koishi is due at 05:00:00 |
| Resolver.NextBoundary | app/src/main/java/com/example/phoneviewing/TouhouWidgetProvider.kt:69-83 | the corrected trigger is strictly after `now` and on a whole-minute changeover; before 5 it is 05:00 today, 5..8 09:00, 9..17 18:00, from 18 05:00 tomorrow |
| Resolver.NextBoundaryIsEarliest | app/src/main/java/com/example/phoneviewing/TouhouWidgetProvider.kt:74-83 | no 05:00, 09:00 or 18:00 instant lies strictly between `now` and the corrected trigger |
| Resolver.ImageConstantUntilBoundary | app/src/main/java/com/example/phoneviewing/TouhouWidgetProvider.kt:74-83 | every instant from `now` up to (excluding) the trigger shows the image `updateAppWidget` (lines 113-117) shows at `now` |
| Resolver.ImageChangesAtBoundary | app/src/main/java/com/example/phoneviewing/TouhouWidgetProvider.kt:74-83 | the image at the trigger differs from the image at `now`, so no wake is wasted |
| Resolver.BoundaryStartsNextWindow | app/src/main/java/com/example/phoneviewing/TouhouWidgetProvider.kt:69-83 | the trigger's clock reading is the start of the window following the one that holds `now` |
| Resolver.NextBoundaryRollover | app/src/main/java/com/example/phoneviewing/TouhouWidgetProvider.kt:75-81 | 23:30 and 18:00 on day D give 05:00 on D+1; 04:00 and 00:00 on day D give 05:00 on D |
| Scheduler.ArmedAlarm | app/src/main/java/com/example/phoneviewing/TouhouWidgetProvider.kt:85-90 | the corrected registration is for a time strictly after `now`, the boundary's milliseconds; it is exact iff exact alarms are not denied |
| Scheduler.ArmedAlarmReadsAsBoundary | app/src/main/java/com/example/phoneviewing/TouhouWidgetProvider.kt:74-89 | the corrected registration's millisecond time reads back as the boundary, an instant at 05:00, 09:00 or 18:00 sharp |
| Scheduler.ArmedAlarmAsWritten | app/src/main/java/com/example/phoneviewing/TouhouWidgetProvider.kt:74-89 | the source's `nextTriggerMillis` is the corrected registration's time plus `now`'s seconds and milliseconds |
| Scheduler.DeniedExactKeepsTriggerTime | app/src/main/java/com/example/phoneviewing/TouhouWidgetProvider.kt:85-90 | when exact alarms are denied the slot is still armed for the same time, only inexactly |
| Scheduler.DeniedExactScenario | app/src/main/java/com/example/phoneviewing/TouhouWidgetProvider.kt:85-90 | denied exact alarms at 08:50: the slot is armed, inexactly, for 09:00 |
| Scheduler.RenderAll | app/src/main/java/com/example/phoneviewing/TouhouWidgetProvider.kt:53-55 | after the loop every id of the array shows the image, every other id keeps its image, and the rendered ids are the old ones plus the array's |
| Scheduler.RenderAllAppend | app/src/main/java/com/example/phoneviewing/TouhouWidgetProvider.kt:23-25 | rendering one more id at the end of the array changes only that id |
| Scheduler.AfterUpdate | app/src/main/java/com/example/phoneviewing/TouhouWidgetProvider.kt:17-26 | `onUpdate` puts `now`'s image on every supplied id, keeps other ids and leaves the alarm slot alone |
| Scheduler.AfterSchedule | app/src/main/java/com/example/phoneviewing/TouhouWidgetProvider.kt:62-98 | `scheduleNextUpdate` leaves the one slot holding exactly the corrected registration `ArmedAlarm`, for a time after `now`, replacing any earlier registration, exact iff not denied; widgets unchanged |
| Scheduler.AfterDisabled | app/src/main/java/com/example/phoneviewing/TouhouWidgetProvider.kt:34-40 | `onDisabled` leaves the slot empty and the widgets unchanged |
| Scheduler.AfterReceive | app/src/main/java/com/example/phoneviewing/TouhouWidgetProvider.kt:42-60 | AUTO_UPDATE or BOOT_COMPLETED: every id shows `now`'s image, other ids keep theirs, the slot holds the new registration; any other action changes nothing |
| Scheduler.ReceiveIdempotent | app/src/main/java/com/example/phoneviewing/TouhouWidgetProvider.kt:42-59 | handling the same broadcast twice at the same `now` gives the state one handling gives |
| Scheduler.ReceiveForgetsArmedState | app/src/main/java/com/example/phoneviewing/TouhouWidgetProvider.kt:47-58 | a boot and an alarm wake at the same `now` leave the same registration and images, whatever the slot held before |
| Scheduler.FirstPlacementScenario | app/src/main/java/com/example/phoneviewing/TouhouWidgetProvider.kt:17-32 | a widget first placed at 10:15 shows reimu and the slot is armed for 18:00 that day |
| Scheduler.WidgetProvider.constructor | app/src/main/java/com/example/phoneviewing/TouhouWidgetProvider.kt:15 | the platform state before the first widget is placed: no alarm registered, nothing drawn |
| Scheduler.WidgetProvider.UpdateAppWidget | app/src/main/java/com/example/phoneviewing/TouhouWidgetProvider.kt:104-121 | the given id shows the image of `now`'s hour; nothing else changes |
| Scheduler.WidgetProvider.RenderEach | app/src/main/java/com/example/phoneviewing/TouhouWidgetProvider.kt:53-55 | the `forEach` loop leaves the widget map equal to `RenderAll` of the old one; the slot is untouched |
| Scheduler.WidgetProvider.OnUpdate | app/src/main/java/com/example/phoneviewing/TouhouWidgetProvider.kt:17-26 | the new state is `AfterUpdate` of the old one |
| Scheduler.WidgetProvider.ScheduleNextUpdate | app/src/main/java/com/example/phoneviewing/TouhouWidgetProvider.kt:62-91 | the new state is `AfterSchedule` of the old one |
| Scheduler.WidgetProvider.OnEnabled | app/src/main/java/com/example/phoneviewing/TouhouWidgetProvider.kt:28-32 | the slot is armed for a time after `now`; the new state is `AfterSchedule` of the old one |
| Scheduler.WidgetProvider.OnDisabled | app/src/main/java/com/example/phoneviewing/TouhouWidgetProvider.kt:34-40 | the slot is empty; the new state is `AfterDisabled` of the old one |
| Scheduler.WidgetProvider.OnReceive | app/src/main/java/com/example/phoneviewing/TouhouWidgetProvider.kt:42-60 | the new state is `AfterReceive` of the old one |
| Scheduler.WakeTwice | app/src/main/java/com/example/phoneviewing/TouhouWidgetProvider.kt:42-59 | two AUTO_UPDATE deliveries at the same `now` end in the state one delivery gives |

## Left out

- MainActivity.kt is not part of this model. It is Compose UI, a link to the system settings and a widget-pinning request, with no logic of its own.
- `super.onReceive` (line 44), `super.onEnabled` and `super.onDisabled`: they dispatch inside the framework's AppWidgetProvider, whose code is not part of this model. In particular, the `onUpdate` that the framework may call from `super.onReceive` is not chained in.
- AlarmManager, PendingIntent, RemoteViews, AppWidgetManager, ComponentName and Log are abstracted. The alarm becomes one slot field, rendering becomes a map from id to image, and the warning log line (line 86) is dropped.
- Clock reads: every `Calendar.getInstance()` in one callback is taken to return the same `now`. In the source, the three changeover calendars (lines 69-71) are read a few milliseconds after `now` (line 66). In a changeover minute, that can make the as-written trigger a few milliseconds after `now`, never equal to it (unless all the reads fall in the same millisecond). The as-written alarm already fires inside the changeover minute, carrying the seconds of the earlier wake (see Findings). So that wake re-arms almost at once, and the repeating continues until the minute ends. This is read from the code, not run, and the model does not capture it.
- Calendar details: time zones, daylight saving and month/year rollover in `add(DAY_OF_YEAR, 1)` are not modelled. Days are numbered and every day has 24 hours.
- When the platform actually delivers an alarm, and how late an inexact `set` may be, is outside the model. The model records only the requested time and whether it is exact.
- Scheduler.ArmedAlarm: the registered time is `Millis(NextBoundary(now))`, with seconds and milliseconds cleared. The source registers `nextTriggerMillis`, which keeps `now`'s seconds and milliseconds (see Findings). `ArmedAlarmAsWritten` states the difference.
- Scheduler.ArmedAlarmReadsAsBoundary: the registration reads back as 05:00, 09:00 or 18:00 sharp only in the corrected model. The source's registration carries `now`'s seconds.
- Scheduler.AfterSchedule: it holds the corrected registration `ArmedAlarm`, not the source's `nextTriggerMillis`. The two differ by `now`'s sub-minute part.
- Scheduler.WidgetProvider.ScheduleNextUpdate: it arms the corrected trigger `NextBoundary`, not the `NextTrigger` the source computes. See Findings. The two differ only by `now`'s sub-minute part (`NextTriggerIsShiftedBoundary`).
- Every member that arms the slot uses the same corrected time through `ArmedAlarm`: `AfterSchedule`, `AfterReceive`, `WidgetProvider.ScheduleNextUpdate`, `WidgetProvider.OnEnabled`, `WidgetProvider.OnReceive` and `WakeTwice`.
- Android creates a new receiver object for each broadcast, and the Kotlin provider keeps no fields. The platform state it acts on (the AlarmManager registration and the AppWidgetManager images) outlives each object. The model keeps that state in one long-lived `WidgetProvider` object instead.

## Findings

| source | as written | input that shows it | evidently intended | confidence | as-written member | corrected member |
|---|---|---|---|---|---|---|
| app/src/main/java/com/example/phoneviewing/TouhouWidgetProvider.kt:69-71 | the changeover calendars set only HOUR_OF_DAY and MINUTE, so they keep the current SECOND and MILLISECOND, and the alarm fires up to 59.999 s after the changeover | a wake at 04:59:30 on day D sets the trigger to 05:00:30; from 05:00:00 to 05:00:30 the widget still shows doremy where koishi is due | trigger at the start of 05:00, 09:00 or 18:00, with second and millisecond cleared | medium, not executed | Resolver.NextTriggerFiresLate | Resolver.ImageConstantUntilBoundary |
