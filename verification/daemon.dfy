/** `src/daemon.rs`: the location guard of `start_daemon`, the alignment to
    the next full minute, and the tick loop of `start_event_loop`.

    Reading the clock and sleeping are replaced by inputs: the clock
    reading at loop start, and the finite sequence of ticks the loop goes
    through. Looking up a trigger, resolving it to a time of day and
    choosing the next event are done by callees whose definitions are not
    part of this model; `get_trigger` is an input function, and what
    `get_time` returns at each call is part of the tick it is called in,
    since it depends on the date and the location. */
module Daemon {
  import opened Outcomes
  import opened Clock
  import opened Config
  import opened Backends

  const LocationRequired: string := "Location configuration is required for scheduling with sunrise/sunset."
  const PresetNotFound: string := "Preset not found"

  // ---------------------------------------------------------------------------
  // The location guard

  /** `schedule.iter().any(|s| matches!(s.get_trigger(), Light(_)))`. */
  function AnyLight(schedule: seq<Schedule>, getTrigger: Schedule -> Trigger): (b: bool)
    ensures b <==> exists i :: 0 <= i < |schedule| && getTrigger(schedule[i]).AtLight?
  {
    if |schedule| == 0 then false
    else if getTrigger(schedule[0]).AtLight? then true
    else
      var b := AnyLight(schedule[1..], getTrigger);
      assert forall i :: 1 <= i < |schedule| ==> schedule[i] == schedule[1..][i - 1];
      b
  }

  /** The check at the top of `start_daemon`: a light trigger needs a
      location; a time-only schedule, or any schedule with a location,
      passes. */
  function CheckLocation(config: Configuration, getTrigger: Schedule -> Trigger): (r: Result<()>)
    ensures r.Err? <==>
      config.location.None? && exists i :: 0 <= i < |config.schedule| && getTrigger(config.schedule[i]).AtLight?
    ensures r.Err? ==> r.failure == Error(LocationRequired)
  {
    if config.location.None? && AnyLight(config.schedule, getTrigger) then
      Err(Error(LocationRequired))
    else
      Ok(())
  }

  // ---------------------------------------------------------------------------
  // Alignment to the next minute

  /** `now.with_minute(now.minute() + 1).unwrap().remove_seconds()`:
      `with_minute(60)` is `None`, so at minute 59 the `unwrap` panics. */
  function NextMinute(now: Instant): (r: Result<Time>)
    requires now.Valid()
    ensures r.Ok? <==> now.time.minute < 59
    ensures r.Err? ==> r.failure == Panic(UnwrapNone)
    ensures r.Ok? ==> r.value.Valid() && r.value.second == 0 && r.value.hour == now.time.hour
    ensures r.Ok? ==> now.Nanos() < r.value.Seconds() * NanosPerSecond <= now.Nanos() + 60 * NanosPerSecond
  {
    if now.time.minute + 1 < 60 then
      Ok(RemoveSeconds(Instant(Time(now.time.hour, now.time.minute + 1, now.time.second), now.nano)))
    else
      Err(Panic(UnwrapNone))
  }

  /** The alignment target is the first whole minute after `now`: no whole
      minute lies strictly between them. */
  lemma NextMinuteIsFirst(now: Instant, t: Time)
    requires now.Valid() && now.time.minute < 59
    requires t.Valid() && t.second == 0 && now.time.Seconds() < t.Seconds()
    ensures NextMinute(now).value.Seconds() <= t.Seconds()
  {
    MinuteAfter(now.time, t);
    assert NextMinute(now).value == Time(now.time.hour, now.time.minute + 1, 0);
  }

  lemma MinuteAfter(now: Time, t: Time)
    requires now.Valid() && now.minute < 59
    requires t.Valid() && t.second == 0 && now.Seconds() < t.Seconds()
    ensures Time(now.hour, now.minute + 1, 0).Seconds() <= t.Seconds()
  {
  }

  /** `next_minute.signed_duration_since(now).to_std()?`, in nanoseconds:
      the wait is positive and at most one minute, so the conversion never
      fails. */
  function UntilNextMinute(now: Instant): (r: Result<int>)
    requires now.Valid()
    ensures r.Ok? <==> now.time.minute < 59
    ensures r.Ok? ==> 0 < r.value <= 60 * NanosPerSecond
    ensures r.Ok? ==> now.Nanos() + r.value == NextMinute(now).value.Seconds() * NanosPerSecond
  {
    var target :- NextMinute(now);
    var wait := target.Seconds() * NanosPerSecond - now.Nanos();
    if wait < 0 then Err(Error("outside of `Duration` range")) else Ok(wait)
  }

  // ---------------------------------------------------------------------------
  // The tick loop

  /** The temperature a firing event applies: its literal, or the first
      preset carrying its preset name; a missing preset panics. */
  function ResolveTemperature(presets: seq<Preset>, event: Schedule): (r: Result<Temperature>)
    ensures event.ScheduleTemperature? ==> r == Ok(event.temperature)
    ensures event.SchedulePreset? ==>
      (r.Ok? <==> exists i :: 0 <= i < |presets| && presets[i].name == event.preset)
    ensures event.SchedulePreset? && r.Ok? ==>
      exists i :: 0 <= i < |presets| && presets[i].name == event.preset && presets[i].temperature == r.value &&
        (forall j :: 0 <= j < i ==> presets[j].name != event.preset)
    ensures r.Err? ==> r.failure == Panic(PresetNotFound)
  {
    match event
    case ScheduleTemperature(_, t) => Ok(t)
    case SchedulePreset(_, name) =>
      match FindPreset(presets, name)
      case Some(p) => Ok(p.temperature)
      case None => Err(Panic(PresetNotFound))
  }

  /** How one pass of the loop can end. `Applied` is the `break` after a
      firing; `Waiting` means the ticks ran out before the event's minute;
      `Retrying` is `start_daemon` going to sleep because no next event
      could be chosen; `Stopped` is an error or a panic. */
  datatype LoopEnd =
    | Applied(world: World)
    | Waiting(world: World)
    | Retrying(world: World)
    | Stopped(world: World, failure: Failure)

  /** The body of a matching tick: resolve the temperature and set it. */
  function Fire(config: Configuration, event: Schedule, backend: Backend, w: World, env: Env): (e: LoopEnd)
    ensures ResolveTemperature(config.presets, event).Err? ==> e == Stopped(w, Panic(PresetNotFound))
    ensures ResolveTemperature(config.presets, event).Ok? ==>
      var o := SetTemperature(backend, ResolveTemperature(config.presets, event).value, w, env);
      e.world == o.world && (e.Applied? <==> o.Completed?) && (e.Stopped? <==> o.Aborted?)
  {
    match ResolveTemperature(config.presets, event)
    case Err(f) => Stopped(w, f)
    case Ok(t) =>
      match SetTemperature(backend, t, w, env)
      case Completed(w1) => Applied(w1)
      case Aborted(w1, f) => Stopped(w1, f)
  }

  /** One pass through the loop body: the clock reading, and the results
      of the body's two `get_time` calls, the one inside `dbg!` and the one
      bound to `event_time`, in that order. */
  datatype Tick = Tick(reading: Instant, logged: Result<Time>, eventTime: Result<Time>)

  /** A tick fires when its reading, with the seconds removed, equals the
      event's time. */
  predicate Fires(reading: Instant, eventTime: Time) {
    RemoveSeconds(reading) == eventTime
  }

  /** The tick goes round the loop again: both lookups succeed and the
      reading is not in the event's minute. */
  predicate PassesOn(tick: Tick) {
    tick.logged.Ok? && tick.eventTime.Ok? && !Fires(tick.reading, tick.eventTime.value)
  }

  /** How a tick that does not pass on ends the pass: the first failing
      lookup's error, or the firing. */
  function TickEnd(config: Configuration, event: Schedule, backend: Backend, tick: Tick, w: World, env: Env): (e: LoopEnd)
    requires !PassesOn(tick)
    // the `?` of the `dbg!` lookup comes first
    ensures tick.logged.Err? ==> e == Stopped(w, tick.logged.failure)
    ensures tick.logged.Ok? && tick.eventTime.Err? ==> e == Stopped(w, tick.eventTime.failure)
    // both lookups succeeded, so the reading is in the event's minute
    ensures tick.logged.Ok? && tick.eventTime.Ok? ==>
      Fires(tick.reading, tick.eventTime.value) && e == Fire(config, event, backend, w, env)
    ensures (e.Stopped? && e.world == w) || e == Fire(config, event, backend, w, env)
  {
    if tick.logged.Err? then Stopped(w, tick.logged.failure)
    else if tick.eventTime.Err? then Stopped(w, tick.eventTime.failure)
    else Fire(config, event, backend, w, env)
  }

  /** Where the loop leaves the ticks: the index of the first tick that
      does not pass on, or the number of ticks when all of them do. */
  function FirstStop(ticks: seq<Tick>): (k: nat)
    ensures k <= |ticks|
    ensures forall j :: 0 <= j < k ==> PassesOn(ticks[j])
    ensures k < |ticks| ==> !PassesOn(ticks[k])
  {
    FirstStopFrom(ticks, 0)
  }

  function FirstStopFrom(ticks: seq<Tick>, from: nat): (k: nat)
    requires from <= |ticks|
    requires forall j :: 0 <= j < from ==> PassesOn(ticks[j])
    ensures from <= k <= |ticks|
    ensures forall j :: 0 <= j < k ==> PassesOn(ticks[j])
    ensures k < |ticks| ==> !PassesOn(ticks[k])
    decreases |ticks| - from
  {
    if from == |ticks| || !PassesOn(ticks[from]) then from else FirstStopFrom(ticks, from + 1)
  }

  /** The `loop` of `start_event_loop` over the given ticks: every tick
      that passes on leaves the world alone, and the first one that does not
      ends the pass. */
  function EventLoop(config: Configuration, event: Schedule, backend: Backend,
                     ticks: seq<Tick>, w: World, env: Env): (e: LoopEnd)
    ensures FirstStop(ticks) == |ticks| ==> e == Waiting(w)
    ensures FirstStop(ticks) < |ticks| ==> e == TickEnd(config, event, backend, ticks[FirstStop(ticks)], w, env)
    decreases |ticks|
  {
    if |ticks| == 0 then
      Waiting(w)
    else if !PassesOn(ticks[0]) then
      TickEnd(config, event, backend, ticks[0], w, env)
    else
      EventLoop(config, event, backend, ticks[1..], w, env)
  }

  /** Ticks whose two `get_time` calls both give the same `t`. */
  predicate SteadyEventTime(ticks: seq<Tick>, t: Time) {
    forall i :: 0 <= i < |ticks| ==> ticks[i].logged == Ok(t) && ticks[i].eventTime == Ok(t)
  }

  /** When the event time does not change during the pass, the pass fires
      exactly when some tick falls in the event's minute, and otherwise
      leaves the world unchanged. */
  lemma EventLoopSteadyTime(config: Configuration, event: Schedule, backend: Backend,
                            ticks: seq<Tick>, t: Time, w: World, env: Env)
    requires SteadyEventTime(ticks, t)
    ensures (exists i :: 0 <= i < |ticks| && Fires(ticks[i].reading, t)) ==>
      EventLoop(config, event, backend, ticks, w, env) == Fire(config, event, backend, w, env)
    ensures (forall i :: 0 <= i < |ticks| ==> !Fires(ticks[i].reading, t)) ==>
      EventLoop(config, event, backend, ticks, w, env) == Waiting(w)
  {
  }

  /** A pass of the loop programs the display at most once, keeps every
      earlier effect, and only a firing tick changes the world. */
  lemma EventLoopAppliesAtMostOnce(config: Configuration, event: Schedule, backend: Backend,
                                   ticks: seq<Tick>, w: World, env: Env)
    ensures var e := EventLoop(config, event, backend, ticks, w, env);
      |e.world.log| >= |w.log| && e.world.log[..|w.log|] == w.log &&
      GammaCount(e.world.log) <= GammaCount(w.log) + 1
    ensures EventLoop(config, event, backend, ticks, w, env).Waiting? ==>
      EventLoop(config, event, backend, ticks, w, env).world == w
  {
    var e := EventLoop(config, event, backend, ticks, w, env);
    var k := FirstStop(ticks);
    if k < |ticks| {
      if ticks[k].logged.Ok? && ticks[k].eventTime.Ok? {
        assert e == Fire(config, event, backend, w, env);
        match ResolveTemperature(config.presets, event)
        case Ok(t) => SetTemperatureGammaOnce(backend, t, w, env);
        case Err(_) => assert e.world == w;
      } else {
        assert e.world == w;
      }
    }
  }

  /** When a pass ends by firing, the display received exactly the
      event's temperature, right after that temperature was persisted. */
  lemma AppliedTemperatureIsResolved(config: Configuration, event: Schedule, backend: Backend,
                                     ticks: seq<Tick>, w: World, env: Env)
    requires EventLoop(config, event, backend, ticks, w, env).Applied?
    ensures ResolveTemperature(config.presets, event).Ok?
    ensures var t := ResolveTemperature(config.presets, event).value;
      EventLoop(config, event, backend, ticks, w, env).world.log ==
        w.log + [Persisted(TemperatureFile, TemperatureText(env, t)), GammaSet(backend, t)]
    ensures event.ScheduleTemperature? ==> ResolveTemperature(config.presets, event).value == event.temperature
  {
    var k := FirstStop(ticks);
    assert k < |ticks|;
    assert ticks[k].logged.Ok? && ticks[k].eventTime.Ok?;
    var e := Fire(config, event, backend, w, env);
    assert EventLoop(config, event, backend, ticks, w, env) == e;
    assert ResolveTemperature(config.presets, event).Ok?;
    var t := ResolveTemperature(config.presets, event).value;
    var o := SetTemperature(backend, t, w, env);
    assert e.world == o.world && o.Completed?;
    assert o.world.log == w.log + [Persisted(TemperatureFile, TemperatureText(env, t))] + [GammaSet(backend, t)];
  }

  // ---------------------------------------------------------------------------
  // Start-up

  /** `start_event_loop`: wait for the next minute, then run the ticks. */
  function StartEventLoop(config: Configuration, event: Schedule, backend: Backend,
                          start: Instant, ticks: seq<Tick>, w: World, env: Env): (e: LoopEnd)
    requires start.Valid()
    ensures start.time.minute == 59 ==> e == Stopped(w, Panic(UnwrapNone))
    ensures start.time.minute < 59 ==> e == EventLoop(config, event, backend, ticks, w, env)
  {
    match UntilNextMinute(start)
    case Err(f) => Stopped(w, f)
    case Ok(_) => EventLoop(config, event, backend, ticks, w, env)
  }

  /** `start_daemon` up to the first pass of the loop. `nextEvent` is the
      result of `get_next_scheduled_event`. */
  function StartDaemon(config: Configuration, getTrigger: Schedule -> Trigger, backend: Backend,
                       nextEvent: Result<Schedule>, start: Instant, ticks: seq<Tick>, w: World, env: Env): (e: LoopEnd)
    requires start.Valid()
    // the guard is fatal and runs before anything else
    ensures CheckLocation(config, getTrigger).Err? ==> e == Stopped(w, Error(LocationRequired))
    ensures CheckLocation(config, getTrigger).Ok? && nextEvent.Err? ==> e == Retrying(w)
    ensures CheckLocation(config, getTrigger).Ok? && nextEvent.Ok? ==>
      e == StartEventLoop(config, nextEvent.value, backend, start, ticks, w, env)
  {
    match CheckLocation(config, getTrigger)
    case Err(f) => Stopped(w, f)
    case Ok(_) =>
      match nextEvent
      case Err(_) => Retrying(w)
      case Ok(event) => StartEventLoop(config, event, backend, start, ticks, w, env)
  }

  // ---------------------------------------------------------------------------
  // An event in minute 59

  /** After a firing, `start_event_loop` is entered again for the next
      event, a moment later and so normally in the same minute. For an event
      at `hh:59` that second entry reaches the `unwrap` of the minute-59
      alignment: applying such an event is followed by a panic. */
  lemma Minute59EventPanicsAfterFiring(config: Configuration, event: Schedule, next: Schedule, backend: Backend,
                                       tick: Tick, again: Instant, later: seq<Tick>, w: World, env: Env)
    requires tick.reading.Valid() && tick.reading.time.minute == 59
    requires tick.logged == Ok(RemoveSeconds(tick.reading)) && tick.eventTime == Ok(RemoveSeconds(tick.reading))
    requires again.Valid() && again.time.hour == tick.reading.time.hour && again.time.minute == 59
    requires Fire(config, event, backend, w, env).Applied?
    ensures var e := EventLoop(config, event, backend, [tick], w, env);
      e.Applied? && StartEventLoop(config, next, backend, again, later, e.world, env) == Stopped(e.world, Panic(UnwrapNone))
  {
    assert !PassesOn([tick][0]);
  }

  /** The wait the alignment evidently intends: up to the start of the
      following minute, counted from midnight, so that 10:59 waits for 11:00
      and 23:59 for the next midnight. */
  function UntilNextMinuteWrapping(now: Instant): (r: int)
    requires now.Valid()
    ensures 0 < r <= 60 * NanosPerSecond
    ensures now.Nanos() + r == (now.time.hour * 60 + now.time.minute + 1) * 60 * NanosPerSecond
  {
    (60 - now.time.second) * NanosPerSecond - now.nano
  }

  /** Where the program's alignment does not panic, it waits exactly as the
      intended one does. */
  lemma WrappingAgreesBeforeMinute59(now: Instant)
    requires now.Valid() && now.time.minute < 59
    ensures UntilNextMinute(now) == Ok(UntilNextMinuteWrapping(now))
  {
  }
}
