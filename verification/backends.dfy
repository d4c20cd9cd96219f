/** `src/backends.rs`: the backend enumeration, the temperature wrapper, and
    how setting a temperature persists it and then programs the display.

    The world a backend acts on is the state directory plus a log of the
    effects that took place, in order. Converting a temperature into gamma
    factors and writing those to the display are not modelled: a successful
    gamma call is logged with the backend and the temperature it was
    derived from. */
module Backends {
  import opened Outcomes
  import opened Text
  import opened Numbers
  import Toml
  import State

  /** `struct Temperature(f64)`. */
  datatype Temperature = Temperature(value: F64) {
    /** `Temperature::as_f64`. */
    function AsF64(): F64 {
      value
    }
  }

  /** `Temperature::new`. */
  function NewTemperature(v: F64): (t: Temperature)
    ensures t.AsF64() == v
  {
    Temperature(v)
  }

  /** `StateFileName for Temperature`. */
  const TemperatureFile: string := "temperature"

  datatype Backend = Tty | X11

  /** `#[default]` on `Backend`. */
  function DefaultBackend(): (b: Backend)
    ensures b == X11
  {
    X11
  }

  const InvalidBackendMessage: string := "Invalid backend"

  /** `Backend::try_from(&str)`: compares the upper-cased name. */
  function TryFromStr(s: string): (r: Result<Backend>)
    ensures r == Ok(Tty) <==> CaseVariantOf(s, "tty")
    ensures r == Ok(X11) <==> CaseVariantOf(s, "x11")
    ensures r.Err? <==> !CaseVariantOf(s, "tty") && !CaseVariantOf(s, "x11")
    ensures r.Err? ==> r.failure == Error(InvalidBackendMessage)
  {
    UpperMatchesCaseVariant(s, "tty", "TTY");
    UpperMatchesCaseVariant(s, "x11", "X11");
    match Upper(s)
    case "TTY" => Ok(Tty)
    case "X11" => Ok(X11)
    case _ => Err(Error(InvalidBackendMessage))
  }

  /** For a lower-case word, `s` upper-cases to the word's capitals exactly
      when `s` is a case variant of the word. */
  lemma UpperMatchesCaseVariant(s: string, word: string, upper: string)
    requires upper == Upper(word)
    requires forall i :: 0 <= i < |word| ==> !('A' <= word[i] <= 'Z')
    ensures Upper(s) == upper <==> CaseVariantOf(s, word)
  {
  }

  /** The parse is case-insensitive: upper- or lower-casing the name first
      changes nothing. */
  lemma TryFromCaseInsensitive(s: string)
    ensures TryFromStr(Upper(s)) == TryFromStr(s)
    ensures TryFromStr(Lower(s)) == TryFromStr(s)
  {
    assert Upper(Upper(s)) == Upper(s);
    assert Upper(Lower(s)) == Upper(s);
  }

  /** `Deserialize for Backend`: a string, handed to `try_from`. */
  function DeserializeBackend(v: Toml.Value): (r: Result<Backend>)
    ensures v.String? ==> r == TryFromStr(v.text)
    ensures !v.String? ==> r.Err?
  {
    match v
    case String(s) => TryFromStr(s)
    case _ => Err(Error(Toml.ExpectedString))
  }

  // ---------------------------------------------------------------------------
  // Effects

  datatype Effect =
    | Persisted(name: string, text: string)
    | GammaSet(backend: Backend, temperature: Temperature)

  /** The state directory and every effect so far, oldest first. */
  datatype World = World(store: State.Store, log: seq<Effect>)

  /** What the model takes from outside: which state files cannot be
      written, whether the X display is unreachable, and the standard
      library's `{}` rendering of an `f64`. */
  datatype Env = Env(unwritable: set<string>, displayDown: bool, formatF64: F64 -> string)

  /** An effectful operation either completes or stops with a failure; in
      both cases the world may already have changed. */
  datatype Outcome = Completed(world: World) | Aborted(world: World, failure: Failure)

  /** `state::write`, as seen from the world. */
  function Persist(w: World, env: Env, name: string, text: string): (o: Outcome)
    ensures o.Completed? <==> name !in env.unwritable
    ensures o.Completed? ==> o.world.log == w.log + [Persisted(name, text)]
    ensures o.Completed? ==> o.world.store == w.store[name := text]
    ensures o.Aborted? ==> o.world == w
  {
    match State.Write(w.store, name, text, name !in env.unwritable)
    case Ok(s) => Completed(World(s, w.log + [Persisted(name, text)]))
    case Err(f) => Aborted(w, f)
  }

  /** `impl Display for Temperature`, the text a temperature is persisted
      as: `{}` of the wrapped `f64`, with no unit or padding. */
  function TemperatureText(env: Env, t: Temperature): (s: string)
    ensures s == env.formatF64(t.value)
  {
    env.formatF64(t.AsF64())
  }

  /** A temperature built from `v` displays exactly as `v` does, so two
      temperatures with the same `f64` are persisted as the same text. */
  lemma TemperatureTextOfNew(env: Env, v: F64, u: Temperature)
    ensures TemperatureText(env, NewTemperature(v)) == env.formatF64(v)
    ensures u.AsF64() == v ==> TemperatureText(env, u) == TemperatureText(env, NewTemperature(v))
  {
  }

  // ---------------------------------------------------------------------------
  // The TTY palette

  predicate IsHexDigit(c: char) {
    IsDigit(c) || 'a' <= c <= 'f' || 'A' <= c <= 'F'
  }

  function HexValue(c: char): (n: nat)
    requires IsHexDigit(c)
    ensures n < 16
  {
    if IsDigit(c) then DigitValue(c) else if 'a' <= c <= 'f' then c as int - 'a' as int + 10 else c as int - 'A' as int + 10
  }

  /** Six hex digits: three pairs that `u8::from_str_radix(_, 16)` accepts. */
  predicate IsHexColor(s: string) {
    |s| == 6 && forall j :: 0 <= j < 6 ==> IsHexDigit(s[j])
  }

  const SliceOutOfRange: string := "byte index out of range"
  const InvalidHexDigit: string := "invalid digit found in string"

  /** `u8::from_str_radix(pair, 16)` on a two-character slice: two hex
      digits, or a `+` sign followed by one. */
  function ParseHexPair(pair: string): (r: Result<nat>)
    requires |pair| == 2
    ensures r.Ok? <==> (IsHexDigit(pair[0]) || pair[0] == '+') && IsHexDigit(pair[1])
    ensures r.Ok? ==> r.value < 256
    ensures r.Ok? && pair[0] != '+' ==> r.value == HexValue(pair[0]) * 16 + HexValue(pair[1])
    ensures r.Ok? && pair[0] == '+' ==> r.value == HexValue(pair[1])
    ensures r.Err? ==> r.failure == Error(InvalidHexDigit)
  {
    if IsHexDigit(pair[0]) && IsHexDigit(pair[1]) then Ok(HexValue(pair[0]) * 16 + HexValue(pair[1]))
    else if pair[0] == '+' && IsHexDigit(pair[1]) then Ok(HexValue(pair[1]))
    else Err(Error(InvalidHexDigit))
  }

  /** What `ParseHexPair` accepts. */
  predicate PairParses(pair: string)
    requires |pair| == 2
  {
    (IsHexDigit(pair[0]) || pair[0] == '+') && IsHexDigit(pair[1])
  }

  /** The three `from_str_radix` calls on one palette entry, in order. Each
      pair is sliced just before it is parsed, so a short entry panics at
      the first slice that runs past its end, unless an earlier pair has
      already failed to parse. Characters after the sixth are ignored. */
  function ParseColor(color: string): (r: Result<(nat, nat, nat)>)
    ensures r.Ok? <==>
      |color| >= 6 && PairParses(color[0..2]) && PairParses(color[2..4]) && PairParses(color[4..6])
    ensures r == Err(Panic(SliceOutOfRange)) <==>
      || |color| < 2
      || (|color| < 4 && PairParses(color[0..2]))
      || (4 <= |color| < 6 && PairParses(color[0..2]) && PairParses(color[2..4]))
    ensures r.Err? ==> r.failure == Panic(SliceOutOfRange) || r.failure == Error(InvalidHexDigit)
    ensures IsHexColor(color) ==> r == Ok((HexValue(color[0]) * 16 + HexValue(color[1]),
                                           HexValue(color[2]) * 16 + HexValue(color[3]),
                                           HexValue(color[4]) * 16 + HexValue(color[5])))
  {
    if |color| < 2 then Err(Panic(SliceOutOfRange))
    else
      var red :- ParseHexPair(color[0..2]);
      if |color| < 4 then Err(Panic(SliceOutOfRange))
      else
        var green :- ParseHexPair(color[2..4]);
        if |color| < 6 then Err(Panic(SliceOutOfRange))
        else
          var blue :- ParseHexPair(color[4..6]);
          Ok((red, green, blue))
  }

  /** A bad first pair is reported before a short entry is noticed; only a
      slice past the end with every earlier pair valid panics. */
  lemma ShortEntryExamples()
    ensures ParseColor("zz0") == Err(Error(InvalidHexDigit))
    ensures ParseColor("00zz") == Err(Error(InvalidHexDigit))
    ensures ParseColor("0") == Err(Panic(SliceOutOfRange))
    ensures ParseColor("000") == Err(Panic(SliceOutOfRange))
    ensures ParseColor("+f0a0b") == Ok((15, 10, 11))
  {
  }

  /** The loop of `set_gamma_for_tty` as far as it can fail: the entries are
      parsed in order and the first that fails ends the call. */
  function ParsePalette(table: seq<string>): (r: Result<()>)
    ensures r.Ok? <==> forall i :: 0 <= i < |table| ==> ParseColor(table[i]).Ok?
    ensures r.Err? ==> exists i :: 0 <= i < |table| && ParseColor(table[i]) == Err(r.failure)
  {
    if |table| == 0 then Ok(())
    else
      match ParseColor(table[0])
      case Err(f) => Err(f)
      case Ok(_) =>
        var r := ParsePalette(table[1..]);
        assert forall i :: 1 <= i < |table| ==> table[i] == table[1..][i - 1];
        r
  }

  const TtyColorTable: seq<string> := [
    "000000", "aa0000", "00aa00", "aa5500", "0000aa", "aa00aa", "00aaaa", "aaaaaa", "555555",
    "ff5555", "55ff55", "ffff55", "5555ff", "ff55ff", "55ffff", "ffffff"
  ]

  /** The outcome of the TTY backend's palette loop. */
  const TtyPaletteCheck: Result<()> := ParsePalette(TtyColorTable)

  /** Every palette entry is three hex pairs. */
  lemma TtyPaletteIsHex()
    ensures |TtyColorTable| == 16
    ensures forall i :: 0 <= i < |TtyColorTable| ==> IsHexColor(TtyColorTable[i])
  {
  }

  /** So the `?` after each `from_str_radix` in the TTY backend never
      returns early: the TTY gamma call cannot fail. */
  lemma TtyPaletteParses()
    ensures TtyPaletteCheck.Ok?
  {
    TtyPaletteIsHex();
    HexColorsParse(TtyColorTable);
  }

  /** A table of hex colours parses through. */
  lemma HexColorsParse(table: seq<string>)
    requires forall i :: 0 <= i < |table| ==> IsHexColor(table[i])
    ensures ParsePalette(table).Ok?
  {
  }

  /** Whether `set_gamma` succeeds on this backend: the TTY path cannot fail,
      the X11 path fails when the display cannot be reached. */
  predicate GammaAvailable(b: Backend, env: Env) {
    b.Tty? || !env.displayDown
  }

  /** `Backend::set_gamma` applied to `temp_to_gamma(t)`: dispatches on the
      backend, and logs the call only when it succeeds. */
  function SetGamma(b: Backend, t: Temperature, w: World, env: Env): (o: Outcome)
    ensures o.Completed? <==> GammaAvailable(b, env)
    ensures o.world.store == w.store
    ensures o.Completed? ==> o.world.log == w.log + [GammaSet(b, t)]
    ensures o.Aborted? ==> o.world == w
  {
    match b
    case Tty =>
      TtyPaletteParses();
      (match TtyPaletteCheck
       case Ok(_) => Completed(World(w.store, w.log + [GammaSet(Tty, t)]))
       case Err(f) => Aborted(w, f))
    case X11 =>
      if env.displayDown then Aborted(w, Error("failed to connect to the X11 server"))
      else Completed(World(w.store, w.log + [GammaSet(X11, t)]))
  }

  /** `Backend::set_temperature`: persist the temperature, then program the
      display. */
  function SetTemperature(b: Backend, t: Temperature, w: World, env: Env): (o: Outcome)
    ensures o.Completed? <==> TemperatureFile !in env.unwritable && GammaAvailable(b, env)
    // a failed persist stops everything: no gamma is applied
    ensures TemperatureFile in env.unwritable ==> o.Aborted? && o.world == w
    // a failed gamma call keeps the temperature persisted
    ensures TemperatureFile !in env.unwritable ==>
      o.world.store == w.store[TemperatureFile := TemperatureText(env, t)]
    // the effects, in order: the file write, then the display
    ensures o.world.log == w.log +
      (if TemperatureFile in env.unwritable then []
       else [Persisted(TemperatureFile, TemperatureText(env, t))] + (if o.Completed? then [GammaSet(b, t)] else []))
  {
    match Persist(w, env, TemperatureFile, TemperatureText(env, t))
    case Aborted(w1, f) => Aborted(w1, f)
    case Completed(w1) => SetGamma(b, t, w1, env)
  }

  /** How many gamma calls a log records. */
  function GammaCount(log: seq<Effect>): (n: nat)
    ensures n <= |log|
  {
    if |log| == 0 then 0 else GammaCount(log[..|log| - 1]) + (if log[|log| - 1].GammaSet? then 1 else 0)
  }

  lemma {:induction false} GammaCountAppend(a: seq<Effect>, b: seq<Effect>)
    ensures GammaCount(a + b) == GammaCount(a) + GammaCount(b)
    decreases |b|
  {
    if |b| == 0 {
      assert a + b == a;
    } else {
      assert (a + b)[..|a + b| - 1] == a + b[..|b| - 1];
      GammaCountAppend(a, b[..|b| - 1]);
    }
  }

  /** One `set_temperature` programs the display at most once, and only
      after the temperature file was written. */
  lemma SetTemperatureGammaOnce(b: Backend, t: Temperature, w: World, env: Env)
    ensures var o := SetTemperature(b, t, w, env);
      |o.world.log| >= |w.log| && o.world.log[..|w.log|] == w.log &&
      GammaCount(o.world.log) <= GammaCount(w.log) + 1 &&
      (GammaCount(o.world.log) > GammaCount(w.log) ==> o.world.log[|w.log|] == Persisted(TemperatureFile, TemperatureText(env, t)))
  {
  }
}
