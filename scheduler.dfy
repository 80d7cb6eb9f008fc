/** The one-slot optional value used for the alarm registration and the
    broadcast action, which may be absent. */
module Wrappers {
  datatype Option<+T> = None | Some(value: T)
}

/**
 The widget provider's reactions to the platform: rendering every widget id,
 arming the single process-wide alarm (one broadcast PendingIntent with request
 code 0 and FLAG_UPDATE_CURRENT, so every registration replaces the previous
 one) and cancelling it.
 */
module Scheduler {
  import opened Wrappers
  import opened Clock
  import opened Resolver

  /** ACTION_AUTO_UPDATE of the provider's companion object. */
  const ActionAutoUpdate: string := "com.example.touhoundw.action.AUTO_UPDATE"
  /** Intent.ACTION_BOOT_COMPLETED. */
  const ActionBootCompleted: string := "android.intent.action.BOOT_COMPLETED"
  /** Build.VERSION_CODES.S, the release from which exact alarms may be denied. */
  const VersionCodeS: int := 31

  /** A registration in the alarm slot: its RTC_WAKEUP time in milliseconds and
      whether it was set with `setExactAndAllowWhileIdle` (true) or `set`. */
  datatype Alarm = Alarm(triggerMillis: int, exact: bool)

  /** What the platform holds for the provider: the alarm slot and the image
      last pushed to each widget id. */
  datatype Provider = Provider(alarm: Option<Alarm>, rendered: map<int, Image>)

  /** Whether exact scheduling is refused: from release S on, when
      `canScheduleExactAlarms()` is false. */
  predicate ExactDenied(sdkInt: int, canScheduleExact: bool)
  {
    sdkInt >= VersionCodeS && !canScheduleExact
  }

  /** Whether `onReceive` handles the broadcast: an AUTO_UPDATE or a
      BOOT_COMPLETED action. A missing action matches neither. */
  predicate IsRefreshAction(action: Option<string>)
  {
    action == Some(ActionAutoUpdate) || action == Some(ActionBootCompleted)
  }

  /** The registration `scheduleNextUpdate` makes at `now`. */
  function ArmedAlarm(now: Instant, sdkInt: int, canScheduleExact: bool): (a: Alarm)
    requires Valid(now)
    ensures a.triggerMillis > Millis(now)
    ensures a.exact <==> !ExactDenied(sdkInt, canScheduleExact)
    ensures a.triggerMillis == Millis(NextBoundary(now))
  {
    Alarm(Millis(NextBoundary(now)), !ExactDenied(sdkInt, canScheduleExact))
  }

  /** The widgets after `updateAppWidget` has pushed `image` to each id of `ids`
      in turn: those ids show `image`, every other id keeps what it showed. */
  function RenderAll(rendered: map<int, Image>, ids: seq<int>, image: Image): (r: map<int, Image>)
    ensures r.Keys == rendered.Keys + set id | id in ids
    ensures forall id :: id in ids ==> r[id] == image
    ensures forall id :: id in rendered && id !in ids ==> r[id] == rendered[id]
    decreases |ids|
  {
    if ids == [] then rendered
    else RenderAll(rendered[ids[0] := image], ids[1..], image)
  }

  /** `onUpdate` at `now`: every id shows the image of the hour; the alarm is untouched. */
  function AfterUpdate(p: Provider, now: Instant, ids: seq<int>): (r: Provider)
    ensures r.alarm == p.alarm
    ensures r.rendered.Keys == p.rendered.Keys + set id | id in ids
    ensures forall id :: id in ids ==> r.rendered[id] == ImageAt(now)
    ensures forall id :: id in p.rendered && id !in ids ==> r.rendered[id] == p.rendered[id]
  {
    p.(rendered := RenderAll(p.rendered, ids, ImageAt(now)))
  }

  /** `scheduleNextUpdate`, and so `onEnabled`: the slot holds the new
      registration, whatever it held before; the widgets are untouched. */
  function AfterSchedule(p: Provider, now: Instant, sdkInt: int, canScheduleExact: bool): (r: Provider)
    requires Valid(now)
    ensures r.alarm.Some? && r.alarm.value.triggerMillis > Millis(now)
    ensures r.alarm.value.exact <==> !ExactDenied(sdkInt, canScheduleExact)
    ensures r.alarm == Some(ArmedAlarm(now, sdkInt, canScheduleExact))
    ensures r.rendered == p.rendered
  {
    p.(alarm := Some(ArmedAlarm(now, sdkInt, canScheduleExact)))
  }

  /** `onDisabled`: the slot is empty; the widgets are untouched. */
  function AfterDisabled(p: Provider): (r: Provider)
    ensures r.alarm == None && r.rendered == p.rendered
  {
    p.(alarm := None)
  }

  /** `onReceive`: a refresh action re-renders every id and then re-arms the
      slot; any other action changes nothing. */
  function AfterReceive(p: Provider, action: Option<string>, now: Instant, ids: seq<int>,
                        sdkInt: int, canScheduleExact: bool): (r: Provider)
    requires Valid(now)
    ensures !IsRefreshAction(action) ==> r == p
    ensures IsRefreshAction(action) ==>
      && r.alarm == Some(ArmedAlarm(now, sdkInt, canScheduleExact))
      && r.rendered.Keys == p.rendered.Keys + (set id | id in ids)
      && (forall id :: id in ids ==> r.rendered[id] == ImageAt(now))
      && (forall id :: id in p.rendered && id !in ids ==> r.rendered[id] == p.rendered[id])
  {
    if IsRefreshAction(action) then
      AfterSchedule(AfterUpdate(p, now, ids), now, sdkInt, canScheduleExact)
    else p
  }

  /** Pushing a batch of ids is appending them one by one. */
  lemma RenderAllAppend(rendered: map<int, Image>, ids: seq<int>, id: int, image: Image)
    ensures RenderAll(rendered, ids + [id], image) == RenderAll(rendered, ids, image)[id := image]
  {
  }

  /** A second refresh at the same `now` leaves the provider as the first did. */
  lemma ReceiveIdempotent(p: Provider, action: Option<string>, now: Instant, ids: seq<int>,
                          sdkInt: int, canScheduleExact: bool)
    requires Valid(now)
    ensures AfterReceive(AfterReceive(p, action, now, ids, sdkInt, canScheduleExact),
                         action, now, ids, sdkInt, canScheduleExact)
         == AfterReceive(p, action, now, ids, sdkInt, canScheduleExact)
  {
  }

  /** A refresh does not depend on whether the slot was armed: from any two
      starting states it leaves the same registration and the same image on
      every id it renders. */
  lemma ReceiveForgetsArmedState(p: Provider, q: Provider, now: Instant, ids: seq<int>,
                                 sdkInt: int, canScheduleExact: bool)
    requires Valid(now)
    ensures AfterReceive(p, Some(ActionBootCompleted), now, ids, sdkInt, canScheduleExact).alarm
         == AfterReceive(q, Some(ActionAutoUpdate), now, ids, sdkInt, canScheduleExact).alarm
    ensures forall id :: id in ids ==>
      AfterReceive(p, Some(ActionBootCompleted), now, ids, sdkInt, canScheduleExact).rendered[id]
      == AfterReceive(q, Some(ActionAutoUpdate), now, ids, sdkInt, canScheduleExact).rendered[id]
  {
  }

  /** The registered time, read back as a calendar, is the boundary: 05:00,
      09:00 or 18:00 sharp, after `now`. */
  lemma ArmedAlarmReadsAsBoundary(now: Instant, sdkInt: int, canScheduleExact: bool)
    requires Valid(now)
    ensures FromMillis(ArmedAlarm(now, sdkInt, canScheduleExact).triggerMillis) == NextBoundary(now)
    ensures IsChangeover(FromMillis(ArmedAlarm(now, sdkInt, canScheduleExact).triggerMillis))
  {
    FromMillisOfMillis(NextBoundary(now));
  }

  /** The registration the source makes, `nextTriggerMillis`, is the model's
      registration moved later by `now`'s seconds and milliseconds. */
  lemma ArmedAlarmAsWritten(now: Instant, sdkInt: int, canScheduleExact: bool)
    requires Valid(now)
    ensures Millis(NextTrigger(now)) == ArmedAlarm(now, sdkInt, canScheduleExact).triggerMillis + now.milli
  {
    NextTriggerIsShiftedBoundary(now);
  }

  /** Denial of exact alarms changes only how the slot is armed, not when. */
  lemma DeniedExactKeepsTriggerTime(now: Instant, sdkInt: int)
    requires Valid(now) && sdkInt >= VersionCodeS
    ensures ArmedAlarm(now, sdkInt, false).triggerMillis == ArmedAlarm(now, sdkInt, true).triggerMillis
    ensures !ArmedAlarm(now, sdkInt, false).exact && ArmedAlarm(now, sdkInt, true).exact
  {
  }

  /** Placing the first widget at 10:15: reimu is shown and the alarm is set for
      18:00 the same day. */
  lemma FirstPlacementScenario(d: int, sdkInt: int, canScheduleExact: bool)
    ensures var p := AfterUpdate(AfterSchedule(Provider(None, map[]), Instant(d, 10, 15, 0), sdkInt, canScheduleExact),
                                 Instant(d, 10, 15, 0), [7]);
            p.rendered == map[7 := Reimu] && p.alarm.Some?
            && p.alarm.value.triggerMillis == Millis(Instant(d, 18, 0, 0))
  {
  }

  /** Exact alarms denied at 08:50: the slot is still armed, inexactly, for 09:00. */
  lemma DeniedExactScenario(d: int)
    ensures AfterSchedule(Provider(None, map[]), Instant(d, 8, 50, 0), VersionCodeS, false).alarm
         == Some(Alarm(Millis(Instant(d, 9, 0, 0)), false))
  {
  }

  /** The platform state the provider's callbacks act on, as one long-lived
      object: `alarm` stands for the AlarmManager registration of the
      AUTO_UPDATE PendingIntent, `rendered` for the images AppWidgetManager
      holds for each widget id. The Kotlin class itself has no fields. */
  class WidgetProvider {
    var alarm: Option<Alarm>
    var rendered: map<int, Image>

    /** The provider's current state as a value. */
    function State(): Provider
      reads this
    {
      Provider(alarm, rendered)
    }

    /** The platform state before the first widget is placed: no alarm
        registered and no widget drawn. */
    constructor ()
      ensures alarm == None && rendered == map[]
    {
      alarm := None;
      rendered := map[];
    }

    /** `updateAppWidget`: the widget `id` shows the image of `now`'s hour. */
    method UpdateAppWidget(now: Instant, id: int)
      modifies this
      ensures rendered == old(rendered)[id := ImageAt(now)]
      ensures alarm == old(alarm)
    {
      var image := ImageForHour(now.hour);
      rendered := rendered[id := image];
    }

    /** The `forEach` over the id array shared by `onUpdate` and `onReceive`. */
    method RenderEach(now: Instant, ids: seq<int>)
      modifies this
      ensures rendered == RenderAll(old(rendered), ids, ImageAt(now))
      ensures alarm == old(alarm)
    {
      for i := 0 to |ids|
        invariant rendered == RenderAll(old(rendered), ids[..i], ImageAt(now))
        invariant alarm == old(alarm)
      {
        RenderAllAppend(old(rendered), ids[..i], ids[i], ImageAt(now));
        assert ids[..i + 1] == ids[..i] + [ids[i]];
        UpdateAppWidget(now, ids[i]);
      }
      assert ids[..|ids|] == ids;
    }

    /** `onUpdate`. */
    method OnUpdate(now: Instant, ids: seq<int>)
      modifies this
      ensures State() == AfterUpdate(old(State()), now, ids)
    {
      RenderEach(now, ids);
    }

    /** `scheduleNextUpdate`: the slot is overwritten with the next boundary,
      exact unless the platform denies it. */
    method ScheduleNextUpdate(now: Instant, sdkInt: int, canScheduleExact: bool)
      requires Valid(now)
      modifies this
      ensures State() == AfterSchedule(old(State()), now, sdkInt, canScheduleExact)
    {
      var nextTriggerMillis := Millis(NextBoundary(now));
      if ExactDenied(sdkInt, canScheduleExact) {
        alarm := Some(Alarm(nextTriggerMillis, false));
      } else {
        alarm := Some(Alarm(nextTriggerMillis, true));
      }
    }

    /** `onEnabled`: the first widget was placed; arm the slot. */
    method OnEnabled(now: Instant, sdkInt: int, canScheduleExact: bool)
      requires Valid(now)
      modifies this
      ensures State() == AfterSchedule(old(State()), now, sdkInt, canScheduleExact)
      ensures alarm.Some? && alarm.value.triggerMillis > Millis(now)
    {
      ScheduleNextUpdate(now, sdkInt, canScheduleExact);
    }

    /** `onDisabled`: the last widget was removed; cancel the registration. */
    method OnDisabled()
      modifies this
      ensures State() == AfterDisabled(old(State()))
      ensures alarm == None
    {
      alarm := None;
    }

    /** `onReceive`: on AUTO_UPDATE or BOOT_COMPLETED, redraw every id and re-arm. */
    method OnReceive(action: Option<string>, now: Instant, ids: seq<int>,
                     sdkInt: int, canScheduleExact: bool)
      requires Valid(now)
      modifies this
      ensures State() == AfterReceive(old(State()), action, now, ids, sdkInt, canScheduleExact)
    {
      if IsRefreshAction(action) {
        RenderEach(now, ids);
        ScheduleNextUpdate(now, sdkInt, canScheduleExact);
      }
    }
  }

  /** Two deliveries of the same wake at the same `now` end where one does. */
  method WakeTwice(p: WidgetProvider, now: Instant, ids: seq<int>, sdkInt: int, canScheduleExact: bool)
    requires Valid(now)
    modifies p
    ensures p.State() == AfterReceive(old(p.State()), Some(ActionAutoUpdate), now, ids, sdkInt, canScheduleExact)
  {
    p.OnReceive(Some(ActionAutoUpdate), now, ids, sdkInt, canScheduleExact);
    p.OnReceive(Some(ActionAutoUpdate), now, ids, sdkInt, canScheduleExact);
    ReceiveIdempotent(old(p.State()), Some(ActionAutoUpdate), now, ids, sdkInt, canScheduleExact);
  }
}
