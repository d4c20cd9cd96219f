/** `src/cli.rs`: what the `set`, `list` and `daemon` subcommands decide.

    `set` is a transition of the world: the temperature applied to the
    display, the persisted temperature and the persisted mode. The
    state-file name and text of a `Mode` are not part of this model, so
    they are an input. The `daemon` subcommand is modelled up to the choice
    of `start` or `stop`, whose implementations are not part of this
    model. */
module Cli {
  import opened Outcomes
  import opened Numbers
  import opened Config
  import opened Backends

  /** `Mode`'s state-file name and `Display`, as `state::write` uses them. */
  datatype ModeFile = ModeFile(name: string, show: Mode -> string)

  /** The `set` arguments; clap's `set_target` group requires one and
      allows at most one of them. */
  datatype SetArgs = SetArgs(temperature: Option<F64>, mode: Option<Mode>, preset: Option<string>) {
    predicate ExactlyOne() {
      (if temperature.Some? then 1 else 0) + (if mode.Some? then 1 else 0) + (if preset.Some? then 1 else 0) == 1
    }
  }

  const NoArgumentFound: string := "No argument found"
  const NoSubcommand: string := "No subcommand provided"

  /** `backend.set_temperature(t)?; state::write(Mode::Static)?`. */
  function ApplyThenStatic(b: Backend, t: Temperature, modeFile: ModeFile, w: World, env: Env): (o: Outcome)
    ensures o.Completed? <==>
      TemperatureFile !in env.unwritable && GammaAvailable(b, env) && modeFile.name !in env.unwritable
    ensures o.Completed? ==> (o.world.log ==
      w.log + [Persisted(TemperatureFile, TemperatureText(env, t)), GammaSet(b, t), Persisted(modeFile.name, modeFile.show(Static))])
    ensures o.Completed? ==>
      o.world.store == w.store[TemperatureFile := TemperatureText(env, t)][modeFile.name := modeFile.show(Static)]
    // a failed `set_temperature` returns early: the mode is not written
    ensures SetTemperature(b, t, w, env).Aborted? ==> o == SetTemperature(b, t, w, env)
    // a failed mode write keeps the temperature persisted and the display programmed
    ensures SetTemperature(b, t, w, env).Completed? && modeFile.name in env.unwritable ==>
      o.Aborted? && o.world == SetTemperature(b, t, w, env).world
  {
    match SetTemperature(b, t, w, env)
    case Aborted(w1, f) => Aborted(w1, f)
    case Completed(w1) => Persist(w1, env, modeFile.name, modeFile.show(Static))
  }

  /** `handle_set_subcommand`. */
  function HandleSet(args: SetArgs, backend: Backend, config: Configuration, modeFile: ModeFile,
                     w: World, env: Env): (o: Outcome)
    requires args.ExactlyOne()
    ensures args.temperature.Some? ==>
      o == ApplyThenStatic(backend, Temperature(args.temperature.value), modeFile, w, env)
    ensures args.preset.Some? && FindPreset(config.presets, args.preset.value).Some? ==>
      o == ApplyThenStatic(backend, FindPreset(config.presets, args.preset.value).value.temperature, modeFile, w, env)
    // an unknown preset changes nothing and ends in the fall-through error
    ensures args.preset.Some? && (forall i :: 0 <= i < |config.presets| ==> config.presets[i].name != args.preset.value) ==>
      o == Aborted(w, Error(NoArgumentFound))
    // a mode is only persisted: the display is not touched
    ensures args.mode.Some? ==>
      && (o.Completed? <==> modeFile.name !in env.unwritable)
      && (o.Completed? ==> o.world.log == w.log + [Persisted(modeFile.name, modeFile.show(args.mode.value))])
      && (o.Completed? ==> o.world.store == w.store[modeFile.name := modeFile.show(args.mode.value)])
      && (o.Aborted? ==> o.world == w)
  {
    if args.temperature.Some? then
      ApplyThenStatic(backend, NewTemperature(args.temperature.value), modeFile, w, env)
    else if args.preset.Some? && FindPreset(config.presets, args.preset.value).Some? then
      ApplyThenStatic(backend, FindPreset(config.presets, args.preset.value).value.temperature, modeFile, w, env)
    else if args.mode.Some? then
      Persist(w, env, modeFile.name, modeFile.show(args.mode.value))
    else
      Aborted(w, Error(NoArgumentFound))
  }

  /** Applying a preset by name has exactly the effect of setting that
      preset's temperature directly. */
  lemma PresetActsAsItsTemperature(name: string, backend: Backend, config: Configuration,
                                   modeFile: ModeFile, w: World, env: Env)
    requires FindPreset(config.presets, name).Some?
    ensures var t := FindPreset(config.presets, name).value.temperature;
      HandleSet(SetArgs(None, None, Some(name)), backend, config, modeFile, w, env) ==
      HandleSet(SetArgs(Some(t.AsF64()), None, None), backend, config, modeFile, w, env)
  {
  }

  /** A completed apply programs the display exactly once. */
  lemma ApplyProgramsDisplayOnce(b: Backend, t: Temperature, modeFile: ModeFile, w: World, env: Env)
    requires ApplyThenStatic(b, t, modeFile, w, env).Completed?
    ensures GammaCount(ApplyThenStatic(b, t, modeFile, w, env).world.log) == GammaCount(w.log) + 1
  {
    var added := [Persisted(TemperatureFile, TemperatureText(env, t)), GammaSet(b, t),
                  Persisted(modeFile.name, modeFile.show(Static))];
    assert ApplyThenStatic(b, t, modeFile, w, env).world.log == w.log + added;
    GammaCountAppend(w.log, added);
    OneGammaBetweenWrites(added);
  }

  lemma OneGammaBetweenWrites(log: seq<Effect>)
    requires |log| == 3 && log[0].Persisted? && log[1].GammaSet? && log[2].Persisted?
    ensures GammaCount(log) == 1
  {
    assert log[..3 - 1] == log[..2];
    assert log[..2][..2 - 1] == log[..1];
    assert log[..1][..1 - 1] == [];
    assert GammaCount(log[..1]) == 0;
    assert GammaCount(log[..2]) == 1;
  }

  /** `handle_list_subcommand`: `list presets` prints `name: temperatureK`
      for each preset, in configuration order. */
  function HandleList(sub: Option<string>, config: Configuration, formatF64: F64 -> string): (r: Result<seq<string>>)
    ensures r.Ok? <==> sub == Some("presets")
    ensures r.Err? ==> r.failure == Error(NoSubcommand)
    ensures r.Ok? ==> |r.value| == |config.presets|
    ensures r.Ok? ==> forall i :: 0 <= i < |r.value| ==>
      r.value[i] == config.presets[i].name + ": " + formatF64(config.presets[i].temperature.AsF64()) + "K"
  {
    match sub
    case Some("presets") =>
      Ok(seq(|config.presets|, i requires 0 <= i < |config.presets| =>
        config.presets[i].name + ": " + formatF64(config.presets[i].temperature.AsF64()) + "K"))
    case _ => Err(Error(NoSubcommand))
  }

  datatype DaemonCommand = Start | Stop

  /** `handle_daemon_subcommand`: which of `start_daemon` / `stop_daemon`
      runs. */
  function HandleDaemon(sub: Option<string>): (r: Result<DaemonCommand>)
    ensures r == Ok(Start) <==> sub == Some("start")
    ensures r == Ok(Stop) <==> sub == Some("stop")
    ensures r.Err? <==> sub != Some("start") && sub != Some("stop")
    ensures r.Err? ==> r.failure == Error(NoSubcommand)
  {
    match sub
    case Some("start") => Ok(Start)
    case Some("stop") => Ok(Stop)
    case _ => Err(Error(NoSubcommand))
  }
}
