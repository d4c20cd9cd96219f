# bluegone, modelled in Dafny

bluegone sets the colour temperature of the screen, through an X11 gamma
ramp or a Linux-console palette, either on command (`bluegone set`) or from a
daemon that waits for a scheduled clock time or sunrise/sunset and then applies
a temperature. This project models the decision logic of that program as pure
functions over immutable data. It covers:

- the schedule configuration (`src/config.rs`): trigger strings (`HH:MM:SS`,
  `sunset`, `sunrise`), schedule entries that must carry exactly one of
  `temperature` or `preset`, the mode, and the default configuration;
- the daemon (`src/daemon.rs`): the check that light triggers come with a
  location, the wait until the next full minute, and the tick loop that
  applies an event's temperature once, in the event's minute;
- the `set`, `list` and `daemon` subcommands (`src/cli.rs`);
- backend selection and the effects of setting a temperature
  (`src/backends.rs`, `src/backends/mod.rs`): persist first, then program
  the display;
- the process id's text form (`src/lib.rs`) and the state directory
  (`src/state.rs`), modelled as a map from file name to file text.

Modules: `Outcomes` (results and failures), `Text`, `Numbers`, `Clock`,
`Toml`, `State`, `Lib`, `Backends`, `BackendsMod`, `Config`, `Daemon`, `Cli`.
There is one file per module.

How the model represents the program:

- A Rust error (`anyhow`, `serde`) is `Failure.Error`. A panic (`unwrap`,
  `expect`) is `Failure.Panic`. Both end the operation.
- An `f64` is kept as its IEEE-754 bit pattern. Temperatures are only stored
  and passed on, never computed with. The default presets 6500.0 and 4000.0
  appear as `0x40B9640000000000` and `0x40AF400000000000`.
- The effects of a command or a loop pass are a `World`: the state directory
  plus an ordered log of file writes and gamma calls. An `Env` input says
  which state files cannot be written, whether the X display is unreachable,
  and how the standard library renders an `f64` with `{}`.
- Callees whose definitions are not part of this model are inputs:
  `get_trigger`, the result of `get_next_scheduled_event`, and `home_dir`.
  `get_time` depends on the date (a light trigger resolves to today's sunrise
  or sunset), so each of its calls in the tick loop has its own result, held
  in the tick it is made in. The state-file name and text of `Mode` and the
  file name of `Pid` are inputs too, because their `StateFileName`/`Display`
  implementations are not part of this model. `remove_seconds` is also not
  part of this model. It is read as clearing the seconds and the fraction of a
  second, so a tick reading becomes the start of its minute.
- The source tree holds two definitions of the backends. `src/backends.rs`
  has a `Backend` enum and a `Temperature(f64)` struct. `src/backends/mod.rs`
  has a `GammaSetter` trait and `Temperature = f64`. Each file is modelled on
  its own terms (`Backends`, `BackendsMod`). `BackendsMod.ParsersAgree`
  proves that their name parsers accept the same names.

Behaviours of the code that a reader might not expect, all of which the model
follows:

- `set --preset <unknown>` does not silently do nothing. It writes nothing,
  and then fails with "No argument found", because the argument group leaves
  `mode` empty.
- A clock trigger keeps the seconds it was written with; they are not reset
  to zero.
- The daemon in these files waits for one event at a time and applies it at
  the tick whose minute matches. It does not build or search a ring of time
  blocks.
- `u32` parsing accepts a leading `+` (for example `+7`), as Rust's
  `str::parse` does.

## Model

| member | source | states |
|---|---|---|
| `Clock.RemoveSeconds` | src/daemon.rs:44 | the tick reading keeps its hour and minute and loses its seconds and nanoseconds, so it is the start of the minute containing the reading |
| `State.DataPath` | src/state.rs:48-55 | the data directory is `$XDG_CACHE_DIR/bluegone` when the variable is set, else `<home>/.cache/bluegone` |
| `State.FilePath` | src/state.rs:41-46 | a state file's path is the data directory followed by the file's name |
| `State.FilePathInjective` | src/state.rs:41-46 | different names give different paths, so the directory can be keyed by file name |
| `State.Write` | src/state.rs:7-15 | a write succeeds exactly when the file system allows it; it stores the text under the name and leaves every other file unchanged |
| `State.Read` | src/state.rs:17-30 | a missing file reads as `None`; stored text that parses reads as its value; text that does not parse panics |
| `State.Delete` | src/state.rs:32-39 | deleting removes exactly that file; deleting a missing file is an error |
| `State.ReadAfterWrite` | src/state.rs:7-30 | reading after writing gives `Some` of the parse of the written text |
| `State.ReadOtherAfterWrite` | src/state.rs:11-13 | a write to one file does not change what any other file reads as |
| `State.ReadAfterDelete` | src/state.rs:32-38 | after a delete, the file reads as `None` |
| `State.DeleteTwiceFails` | src/state.rs:36-37 | a second delete of the same file fails |
| `State.PidReadAfterWrite` | src/state.rs:17-27 | a process id written to the state directory reads back as the same id |
| `Lib.Decimal` | src/lib.rs:6-9 | a number renders as one or more ASCII digits, without leading zeros |
| `Lib.ValueOfDecimal` | src/lib.rs:6-9 | the rendered digits denote the number again |
| `Lib.Accumulate` | src/lib.rs:16 | the digit loop succeeds exactly when every character is a digit and the value fits in 32 bits, and then returns that value |
| `Lib.ParseU32` | src/lib.rs:16 | `parse::<u32>` accepts exactly one or more digits after an optional `+`, with a value of at most 4294967295; the empty string is rejected |
| `Lib.PidToString` | src/lib.rs:6-10 | a `Pid` displays as its decimal digits: digits only, no leading zero, denoting the id |
| `Lib.PidTryFrom` | src/lib.rs:12-18 | a `Pid` parses from text exactly when the text is a valid `u32`, and carries its value |
| `Lib.PidRoundTrip` | src/lib.rs:6-17 | parsing the display of any `Pid` gives back that `Pid` |
| `Lib.PidRejectsNonDigit` | src/lib.rs:15-17 | any character other than a digit or a leading `+`, such as a trailing newline, makes the parse fail |
| `Lib.PidRejectsOverflow` | src/lib.rs:15-17 | digits whose value exceeds 4294967295 are rejected |
| `Lib.PidExamples` | src/lib.rs:15-17 | `""`, `"42\n"` and 4294967296 are rejected; `"+7"` parses to 7 |
| `Backends.NewTemperature` | src/backends.rs:18-26 | `Temperature::new(v).as_f64()` is `v` |
| `Backends.DefaultBackend` | src/backends.rs:40-45 | the default backend is X11 |
| `Text.Upper` | src/backends.rs:61 | `to_uppercase` maps each character to its capital, leaving no lower-case letter and changing nothing but letter case |
| `Text.Lower` | src/backends/mod.rs:22 | `to_lowercase` maps each character to its small letter, leaving no capital and changing nothing but letter case |
| `Backends.TryFromStr` | src/backends.rs:57-67 | a name gives `Tty` exactly when it spells `tty` in any letter case, and `X11` exactly when it spells `x11` in any case; every other name gives "Invalid backend" |
| `Backends.TryFromCaseInsensitive` | src/backends.rs:61 | upper- or lower-casing a name first does not change the result |
| `Backends.DeserializeBackend` | src/backends.rs:47-55 | a string value deserialises exactly as `try_from` parses it; a non-string is rejected |
| `Backends.Persist` | src/state.rs:11-13 | a state write through the world either logs and stores the text, or leaves the world unchanged |
| `Backends.TemperatureText` | src/backends.rs:28-32 | a temperature is written out as the `{}` text of the `f64` it wraps, with nothing added |
| `Backends.TemperatureTextOfNew` | src/backends.rs:18-32 | `Temperature::new(v)` displays exactly as `v`, and temperatures wrapping the same `f64` display alike |
| `Backends.ParseHexPair` | src/backends.rs:132-134 | `u8::from_str_radix(_, 16)` on two characters accepts two hex digits or a `+` and one hex digit and returns the byte they denote in base 16; anything else fails with "invalid digit found in string" |
| `Backends.ParseColor` | src/backends.rs:126-134 | the three pairs are sliced and parsed one after another: the entry parses exactly when it has six characters and all three pairs parse; it panics at a slice that runs past its end only when every earlier pair parsed, and otherwise reports the invalid digit; six hex digits give their three bytes |
| `Backends.ShortEntryExamples` | src/backends.rs:132-134 | `zz0` and `00zz` fail with the invalid-digit error, `0` and `000` panic at the slice, and `+f0a0b` gives the bytes 15, 10 and 11 |
| `Backends.ParsePalette` | src/backends.rs:125-134 | the palette loop succeeds exactly when every entry parses, and a failure is the failure of some entry |
| `Backends.TtyPaletteIsHex` | src/backends.rs:118-121 | the palette has 16 entries, each six hex digits |
| `Backends.TtyPaletteParses` | src/backends.rs:118-134 | the built-in palette parses, so the TTY gamma path never returns an error |
| `Backends.SetGamma` | src/backends.rs:70-75 | gamma dispatches on the backend: TTY parses its palette and always succeeds, X11 fails exactly when the display is unreachable; only a success is logged |
| `Backends.SetTemperature` | src/backends.rs:77-81 | the temperature is persisted before the gamma call; if persisting fails, no gamma is applied; if gamma fails, the temperature stays persisted |
| `Backends.SetTemperatureGammaOnce` | src/backends.rs:77-81 | one `set_temperature` only appends to the log, programs the display at most once, and does so only after writing the temperature file |
| `BackendsMod.GetBackendFromStr` | src/backends/mod.rs:21-27 | `tty` and `x11` in any letter case select those backends; any other name fails with "Unknown backend: " followed by the name as given |
| `BackendsMod.LowerFirstSameSelection` | src/backends/mod.rs:22 | lower-casing the name first selects the same backend and fails on the same names |
| `BackendsMod.ParsersAgree` | src/backends/mod.rs:21-27 | the two backend-name parsers of the source tree accept the same names and select corresponding backends |
| `Config.DefaultMode` | src/config.rs:18-24 | the default mode is `Static` |
| `Config.ParseMode` | src/config.rs:18-24 | a mode deserialises exactly from `static` or `dynamic` |
| `Config.ClockShaped` | src/config.rs:69-70 | a string matches `^\d{2}:\d{2}:\d{2}$` exactly when it matches the pattern position by position: eight characters, digits around two colons |
| `Config.ParseTrigger` | src/config.rs:62-84 | text of the shape `dd:dd:dd` is a clock trigger when it is a valid time and "Invalid time format" otherwise, and is never tried as a keyword; exactly `sunset` and `sunrise` are light triggers; everything else is "Invalid trigger" |
| `Config.ClockRoundTrip` | src/config.rs:69-73 | every valid time, written as `HH:MM:SS`, parses back to that time |
| `Config.TriggerExamples` | src/config.rs:69-81 | `08:30:15` parses; `25:00:00` and `12:60:00` are invalid times; `8:00:00`, `08:00` and `Sunset` are invalid triggers |
| `Config.DeserializeTrigger` | src/config.rs:67 | a string value is parsed as a trigger; a non-string is rejected |
| `Config.DeserializeSchedule` | src/config.rs:86-129 | an entry with both `temperature` and `preset`, or with neither, is rejected with its own message; an accepted entry has exactly one and carries its trigger with the literal temperature or the unchanged preset name; a missing or invalid trigger panics |
| `Config.FindPreset` | src/cli.rs:82 | preset lookup returns the first preset with the name, and `None` exactly when no preset has it |
| `Config.DefaultConfiguration` | src/config.rs:138-157 | the default has no location, backend X11, mode `Static`, no schedule, and exactly the presets day = 6500 and night = 4000, in that order |
| `Config.DefaultPresetsFound` | src/config.rs:145-154 | `day` and `night` are found in the default presets; other names are not |
| `Daemon.AnyLight` | src/daemon.rs:10-13 | the schedule needs a location exactly when some entry has a light trigger |
| `Daemon.CheckLocation` | src/daemon.rs:10-17 | start-up fails with the location error exactly when there is no location and some entry has a light trigger; a time-only schedule, or any schedule with a location, passes |
| `Daemon.NextMinute` | src/daemon.rs:34-35 | before minute 59 the target is a whole minute in the same hour, strictly after now and at most a minute later; at minute 59 the `unwrap` panics |
| `Daemon.NextMinuteIsFirst` | src/daemon.rs:33-35 | no whole minute lies strictly between now and the target |
| `Daemon.UntilNextMinute` | src/daemon.rs:39-41 | the wait is positive and at most 60 seconds, and ends exactly at the target, so the duration conversion never fails |
| `Daemon.ResolveTemperature` | src/daemon.rs:52-64 | a literal event applies its own temperature; a preset event applies the first preset with that name; a missing preset panics with "Preset not found" |
| `Daemon.Fire` | src/daemon.rs:50-65 | a firing tick has exactly the effects of `set_temperature` with the resolved temperature, or of nothing when resolution panics |
| `Daemon.FirstStop` | src/daemon.rs:43-69 | the loop leaves the ticks at the first one whose lookups fail or whose reading falls in the event's minute; every earlier tick goes round again |
| `Daemon.TickEnd` | src/daemon.rs:47-65 | a tick that does not go round again stops the pass with the `dbg!` lookup's error, else with the `event_time` lookup's error, and otherwise its reading is in the event's minute and it fires; only a firing changes the world |
| `Daemon.EventLoop` | src/daemon.rs:43-69 | if every tick goes round again, nothing happens; otherwise the first tick that does not ends the pass: with the error of its first failing `get_time` call, in the order of lines 47 and 49, or with one firing |
| `Daemon.EventLoopSteadyTime` | src/daemon.rs:43-69 | when `get_time` gives the same time throughout, the pass fires exactly when some tick falls in that minute, and otherwise changes nothing |
| `Daemon.EventLoopAppliesAtMostOnce` | src/daemon.rs:43-69 | a loop pass only appends to the log and programs the display at most once; a pass that fires nowhere leaves the world unchanged |
| `Daemon.AppliedTemperatureIsResolved` | src/daemon.rs:52-65 | a pass that ends by firing wrote the resolved temperature and then set exactly that temperature on the backend |
| `Daemon.StartEventLoop` | src/daemon.rs:32-43 | a loop that starts at minute 59 panics before any tick; otherwise it is the tick loop |
| `Daemon.Minute59EventPanicsAfterFiring` | src/daemon.rs:35-74 | an event at minute 59 is applied, and then the re-entry for the next event, within the same minute, panics |
| `Daemon.UntilNextMinuteWrapping` | src/daemon.rs:33-41 | the intended alignment: the wait is positive, at most a minute, and ends at the start of the following minute, across the hour and midnight |
| `Daemon.WrappingAgreesBeforeMinute59` | src/daemon.rs:34-39 | before minute 59 the program's alignment waits exactly as the intended one |
| `Daemon.StartDaemon` | src/daemon.rs:9-30 | the location check runs first and is fatal with no effect; without a next event the daemon goes into its retry sleep; otherwise the event loop runs |
| `Cli.ApplyThenStatic` | src/cli.rs:74-78 | a successful apply logs the temperature write, the gamma call and the `Static` mode write, in that order, and leaves the state directory holding the temperature text and `Static`; a failed `set_temperature` returns before the mode is written; a failed mode write returns its error with the temperature persisted and the display already programmed |
| `Cli.ApplyProgramsDisplayOnce` | src/cli.rs:74-78 | a successful apply programs the display exactly once |
| `Cli.HandleSet` | src/cli.rs:69-96 | a temperature or a known preset is applied and then `Static` is persisted; an unknown preset writes nothing and fails with "No argument found"; a mode is only persisted, and the display is not touched |
| `Cli.PresetActsAsItsTemperature` | src/cli.rs:74-87 | `set --preset p` has the same outcome as `set --temperature` with p's temperature |
| `Cli.HandleList` | src/cli.rs:142-153 | `list presets` gives one `name: temperatureK` line per preset, in order; any other subcommand fails with "No subcommand provided" |
| `Cli.HandleDaemon` | src/cli.rs:114-133 | `start` and `stop` are dispatched; any other or a missing subcommand fails with "No subcommand provided" |

## Left out

- The temperature-to-gamma curve (`temp_to_gamma`, src/utils.rs). It is floating-point colour maths. A gamma call is logged with the temperature it came from.
- The X11 gamma ramp and the TTY palette escape sequences. They are display I/O and float-to-integer casts. Only whether the call can fail is modelled.
- The temperature range checks in the `GammaSetter` implementations (src/backends/x11.rs, src/backends/tty.rs). They compare floats, and the model does not interpret floats.
- `Configuration::parse_from_file` and the derived deserialisers of `Configuration`, `Preset` and `Location`. They are file I/O and serde-generated field handling.
- `get_next_scheduled_event`, `get_trigger`, `get_time` (sunrise and sunset astronomy), `parse_schedule`, `get_current_schedule`, `stop_daemon`, `find_process_by_id`, `home_dir` and `remove_seconds` are not part of this model. They are inputs, or read as described above.
- The ring of time blocks and the block selector are not in these files; src/cli.rs:27-28 only calls them. They are not part of this model.
- Wall-clock reads and `thread::sleep`. The clock reading at loop start and the tick readings are inputs. A tick sequence that ends before the event's minute ends as `Waiting`.
- Daemon.StartDaemon: stops at the first loop pass. It leaves out the 5-minute retry and restart (src/daemon.rs:23-26), which recurses without bound through the clock. It also leaves out what follows a firing (src/daemon.rs:71-77): `start_event_loop` is entered again for the next event when one can be chosen, and otherwise the `unreachable!()` panic ends the program. `Daemon.Minute59EventPanicsAfterFiring` states one consequence of the re-entry.
- Daemon.EventLoop: takes `get_time`'s result to be a whole-second `NaiveTime`. A result with a fraction of a second never equals a reading with its seconds removed, so such an event would never fire; that case is not represented.
- Cli.HandleDaemon: states only which of `start_daemon` and `stop_daemon` is called. Those functions, with these signatures, are not part of this model.
- `handle_info_subcommand`, the clap `init_*_subcommand` builders and src/main.rs. They are argument-parsing plumbing and process discovery.
- Leap seconds. chrono accepts a second of 60, but the model treats `08:00:60` as an invalid time.
- Byte offsets of `str` slices. `Backends.ParseColor` counts characters, which are bytes for the ASCII palette; the panic on a slice that splits a multi-byte character is not modelled.
- The Unicode meaning of `\d` and Unicode case mapping. Digits and case are ASCII only; no non-ASCII character maps onto the letters of `tty` or `x11`.
- Daylight-saving gaps in `with_minute`.
- A TOML integer used as a temperature. The model's `Number` already carries the `f64` that serde produces from it.
- UTF-8 decoding of state files, read failures other than a missing file, and partial writes. A failed write leaves the file unchanged.
- The `StateFileName` names of `Mode` and `Pid`, and `Mode`'s text form. They are not part of this model and are inputs.
- Reading a persisted temperature. `Temperature` has no `TryFrom<String>` in these files.

## Findings

| source | as written | input that shows it | evidently intended | confidence | as-written member | corrected member |
|---|---|---|---|---|---|---|
| src/daemon.rs:35 | the next full minute is computed as `now.with_minute(now.minute() + 1).unwrap()`, and `with_minute(60)` is `None` | `start_event_loop` entered at any `hh:59`; in particular the re-entry at src/daemon.rs:74 right after applying an event scheduled at `hh:59:00` | wait until the start of the following minute, rolling over to the next hour or to midnight | not executed | `Daemon.Minute59EventPanicsAfterFiring` (with `Daemon.StartEventLoop`) | `Daemon.UntilNextMinuteWrapping` (with `Daemon.WrappingAgreesBeforeMinute59`) |

The rest of the model keeps the alignment as written, since `Daemon.StartEventLoop` and `Daemon.StartDaemon` describe what the program does. `Daemon.UntilNextMinuteWrapping` is what the alignment would be with the defect removed. `Daemon.WrappingAgreesBeforeMinute59` shows that it changes nothing outside minute 59.
