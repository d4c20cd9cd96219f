/** `src/config.rs`: the configuration's data model, the parsers of
    schedule triggers and schedule entries, and the default
    configuration. */
module Config {
  import opened Outcomes
  import opened Text
  import opened Numbers
  import opened Clock
  import Toml
  import Backends

  /** `Mode`, deserialised in snake case; `Static` is the default. */
  datatype Mode = Static | Dynamic

  function DefaultMode(): (m: Mode)
    ensures m == Static
  {
    Static
  }

  /** The derived `Deserialize for Mode` under `rename_all = "snake_case"`. */
  function ParseMode(s: string): (r: Result<Mode>)
    ensures r == Ok(Static) <==> s == "static"
    ensures r == Ok(Dynamic) <==> s == "dynamic"
    ensures r.Err? <==> s != "static" && s != "dynamic"
  {
    if s == "static" then Ok(Static)
    else if s == "dynamic" then Ok(Dynamic)
    else Err(Error("unknown variant `" + s + "`, expected `static` or `dynamic`"))
  }

  datatype Preset = Preset(name: string, temperature: Backends.Temperature)

  /** `ScheduleLightTrigger`. */
  datatype LightEvent = Sunset | Sunrise

  /** `ScheduleTrigger`: a clock time (seconds kept as written) or a light
      event. */
  datatype Trigger = AtTime(time: Time) | AtLight(event: LightEvent)

  /** `Schedule`: a trigger with either a literal temperature or a preset
      name. */
  datatype Schedule =
    | ScheduleTemperature(trigger: Trigger, temperature: Backends.Temperature)
    | SchedulePreset(trigger: Trigger, preset: string)

  datatype Location = Location(latitude: F64, longitude: F64)

  datatype Configuration = Configuration(
    backend: Backends.Backend,
    mode: Mode,
    location: Option<Location>,
    presets: seq<Preset>,
    schedule: seq<Schedule>)

  // ---------------------------------------------------------------------------
  // Triggers

  const InvalidTimeFormat: string := "Invalid time format"
  const InvalidTrigger: string := "Invalid trigger"

  /** A regular expression made of literal characters and `#`, which stands
      for `\d`, anchored at both ends. */
  predicate MatchesPattern(s: string, pattern: string) {
    && |s| == |pattern|
    && forall i :: 0 <= i < |s| ==> if pattern[i] == '#' then IsDigit(s[i]) else s[i] == pattern[i]
  }

  /** `^\d{2}:\d{2}:\d{2}$` in that notation. */
  const ClockPattern: string := "##:##:##"

  /** The clock regular expression, spelt out position by position. */
  function ClockShaped(s: string): (b: bool)
    ensures b <==> MatchesPattern(s, ClockPattern)
  {
    && |s| == 8
    && s[2] == ':' && s[5] == ':'
    && IsDigit(s[0]) && IsDigit(s[1])
    && IsDigit(s[3]) && IsDigit(s[4])
    && IsDigit(s[6]) && IsDigit(s[7])
  }

  function TwoDigits(a: char, b: char): (n: nat)
    requires IsDigit(a) && IsDigit(b)
    ensures n < 100
  {
    10 * DigitValue(a) + DigitValue(b)
  }

  /** The hour, minute and second a clock-shaped string spells, before any
      range check. */
  function ClockFields(s: string): Time
    requires ClockShaped(s)
  {
    Time(TwoDigits(s[0], s[1]), TwoDigits(s[3], s[4]), TwoDigits(s[6], s[7]))
  }

  /** `Deserialize for ScheduleTrigger` on the string it receives. A string
      of clock shape is parsed as `%H:%M:%S` and is never tried as a
      keyword; anything else must be one of the two keywords, in lower
      case. */
  function ParseTrigger(s: string): (r: Result<Trigger>)
    ensures ClockShaped(s) && ClockFields(s).Valid() ==> r == Ok(AtTime(ClockFields(s)))
    ensures ClockShaped(s) && !ClockFields(s).Valid() ==> r == Err(Error(InvalidTimeFormat))
    ensures r == Ok(AtLight(Sunset)) <==> s == "sunset"
    ensures r == Ok(AtLight(Sunrise)) <==> s == "sunrise"
    ensures r == Err(Error(InvalidTrigger)) <==> !ClockShaped(s) && s != "sunset" && s != "sunrise"
    ensures r.Ok? && r.value.AtTime? ==> r.value.time.Valid()
  {
    if ClockShaped(s) then
      var t := ClockFields(s);
      if t.Valid() then Ok(AtTime(t)) else Err(Error(InvalidTimeFormat))
    else if s == "sunset" then Ok(AtLight(Sunset))
    else if s == "sunrise" then Ok(AtLight(Sunrise))
    else Err(Error(InvalidTrigger))
  }

  /** Two-digit rendering of a number below 100. */
  function Pad2(n: nat): (s: string)
    requires n < 100
    ensures |s| == 2 && IsDigit(s[0]) && IsDigit(s[1]) && TwoDigits(s[0], s[1]) == n
  {
    [DigitChar(n / 10), DigitChar(n % 10)]
  }

  /** A valid time written as `HH:MM:SS`. */
  function FormatClock(t: Time): (s: string)
    requires t.Valid()
    ensures ClockShaped(s)
  {
    Pad2(t.hour) + ":" + Pad2(t.minute) + ":" + Pad2(t.second)
  }

  /** Every valid time, written in the configuration's clock format, parses
      back to itself. */
  lemma ClockRoundTrip(t: Time)
    requires t.Valid()
    ensures ParseTrigger(FormatClock(t)) == Ok(AtTime(t))
  {
  }

  /** Sample trigger strings. */
  lemma TriggerExamples()
    ensures ParseTrigger("08:30:15") == Ok(AtTime(Time(8, 30, 15)))
    ensures ParseTrigger("25:00:00") == Err(Error(InvalidTimeFormat))
    ensures ParseTrigger("12:60:00") == Err(Error(InvalidTimeFormat))
    ensures ParseTrigger("8:00:00") == Err(Error(InvalidTrigger))
    ensures ParseTrigger("08:00") == Err(Error(InvalidTrigger))
    ensures ParseTrigger("Sunset") == Err(Error(InvalidTrigger))
  {
  }

  /** `ScheduleTrigger::deserialize` on a TOML value. */
  function DeserializeTrigger(v: Toml.Value): (r: Result<Trigger>)
    ensures v.String? ==> r == ParseTrigger(v.text)
    ensures !v.String? ==> r.Err?
  {
    match v
    case String(s) => ParseTrigger(s)
    case _ => Err(Error(Toml.ExpectedString))
  }

  // ---------------------------------------------------------------------------
  // Schedule entries

  const BothFields: string := "Cannot have both temperature and preset fields"
  const NeitherField: string := "Must have either temperature or preset field"

  /** A table whose `trigger` field is present and parses: everything the
      entry parser unwraps before it looks at the other fields. */
  predicate HasValidTrigger(v: Toml.Value) {
    v.Table? && "trigger" in v.entries && DeserializeTrigger(v.entries["trigger"]).Ok?
  }

  /** `Deserialize for Schedule`. The `unwrap`s on the table, on the
      trigger and on the field values panic; the two field-combination
      errors are reported. */
  function DeserializeSchedule(v: Toml.Value): (r: Result<Schedule>)
    ensures !HasValidTrigger(v) ==> r.Err? && r.failure.Panic?
    ensures HasValidTrigger(v) && "temperature" in v.entries && "preset" in v.entries ==>
      r == Err(Error(BothFields))
    ensures HasValidTrigger(v) && "temperature" !in v.entries && "preset" !in v.entries ==>
      r == Err(Error(NeitherField))
    ensures r.Ok? ==> HasValidTrigger(v) && ("temperature" in v.entries) != ("preset" in v.entries)
    ensures r.Ok? ==> DeserializeTrigger(v.entries["trigger"]) == Ok(r.value.trigger)
    ensures HasValidTrigger(v) && "preset" !in v.entries && "temperature" in v.entries ==>
      (r.Ok? <==> v.entries["temperature"].Number?) &&
      (r.Ok? ==> r.value == ScheduleTemperature(r.value.trigger, Backends.Temperature(v.entries["temperature"].asF64)))
    ensures HasValidTrigger(v) && "temperature" !in v.entries && "preset" in v.entries ==>
      (r.Ok? <==> v.entries["preset"].String?) &&
      (r.Ok? ==> r.value == SchedulePreset(r.value.trigger, v.entries["preset"].text))
  {
    if !v.Table? || "trigger" !in v.entries then
      Err(Panic(UnwrapNone))
    else
      match DeserializeTrigger(v.entries["trigger"])
      case Err(_) => Err(Panic(UnwrapErr))
      case Ok(trigger) =>
        var hasTemperature := "temperature" in v.entries;
        var hasPreset := "preset" in v.entries;
        if hasTemperature && hasPreset then
          Err(Error(BothFields))
        else if !hasTemperature && !hasPreset then
          Err(Error(NeitherField))
        else if hasTemperature then
          match v.entries["temperature"]
          case Number(f) => Ok(ScheduleTemperature(trigger, Backends.Temperature(f)))
          case _ => Err(Panic(UnwrapErr))
        else
          match v.entries["preset"]
          case String(name) => Ok(SchedulePreset(trigger, name))
          case _ => Err(Panic(UnwrapNone))
  }

  // ---------------------------------------------------------------------------
  // Presets and defaults

  /** `presets.iter().find(|p| p.name == name)`: the first preset with that
      name. */
  function FindPreset(presets: seq<Preset>, name: string): (r: Option<Preset>)
    ensures r.None? <==> forall i :: 0 <= i < |presets| ==> presets[i].name != name
    ensures r.Some? ==> r.value.name == name
    ensures r.Some? ==>
      exists i :: 0 <= i < |presets| && presets[i] == r.value && (forall j :: 0 <= j < i ==> presets[j].name != name)
  {
    if |presets| == 0 then None
    else if presets[0].name == name then Some(presets[0])
    else
      var r := FindPreset(presets[1..], name);
      assert forall j :: 1 <= j < |presets| ==> presets[j] == presets[1..][j - 1];
      r
  }

  /** `Default for Configuration`. */
  function DefaultConfiguration(): (c: Configuration)
    ensures c.location.None?
    ensures c.backend == Backends.X11
    ensures c.mode == Static
    ensures c.schedule == []
    ensures c.presets == [Preset("day", Backends.Temperature(F64_6500)), Preset("night", Backends.Temperature(F64_4000))]
  {
    Configuration(
      Backends.DefaultBackend(),
      DefaultMode(),
      None,
      [Preset("day", Backends.NewTemperature(F64_6500)), Preset("night", Backends.NewTemperature(F64_4000))],
      [])
  }

  /** The default presets are found by name. */
  lemma DefaultPresetsFound()
    ensures FindPreset(DefaultConfiguration().presets, "day") == Some(Preset("day", Backends.Temperature(F64_6500)))
    ensures FindPreset(DefaultConfiguration().presets, "night") == Some(Preset("night", Backends.Temperature(F64_4000)))
    ensures FindPreset(DefaultConfiguration().presets, "dusk").None?
  {
  }
}
