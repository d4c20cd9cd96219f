/** `src/backends/mod.rs`: the trait-object flavour of backend selection,
    where a backend is chosen by a lower-cased name. */
module BackendsMod {
  import opened Outcomes
  import opened Text
  import Backends

  /** The two `GammaSetter` implementations. */
  datatype GammaSetter = TTY | X11

  /** `get_backend_from_str`: the error names the input as given. */
  function GetBackendFromStr(name: string): (r: Result<GammaSetter>)
    ensures r == Ok(TTY) <==> CaseVariantOf(name, "tty")
    ensures r == Ok(X11) <==> CaseVariantOf(name, "x11")
    ensures r.Err? <==> !CaseVariantOf(name, "tty") && !CaseVariantOf(name, "x11")
    ensures r.Err? ==> r.failure == Error("Unknown backend: " + name)
  {
    LowerMatchesCaseVariant(name, "tty");
    LowerMatchesCaseVariant(name, "x11");
    match Lower(name)
    case "tty" => Ok(TTY)
    case "x11" => Ok(X11)
    case _ => Err(Error("Unknown backend: " + name))
  }

  /** For a word without capitals, `s` lower-cases to the word exactly when
      `s` is a case variant of it. */
  lemma LowerMatchesCaseVariant(s: string, word: string)
    requires forall i :: 0 <= i < |word| ==> !('A' <= word[i] <= 'Z')
    ensures Lower(s) == word <==> CaseVariantOf(s, word)
  {
  }

  /** Lower-casing the name first selects the same backend, and fails on
      the same names; only the error text, which quotes the input, can
      differ. */
  lemma LowerFirstSameSelection(name: string)
    ensures GetBackendFromStr(Lower(name)).Ok? <==> GetBackendFromStr(name).Ok?
    ensures GetBackendFromStr(name).Ok? ==> GetBackendFromStr(Lower(name)) == GetBackendFromStr(name)
  {
  }

  /** The two backend parsers of the program accept the same names and map
      them to corresponding backends. */
  lemma ParsersAgree(name: string)
    ensures GetBackendFromStr(name).Ok? <==> Backends.TryFromStr(name).Ok?
    ensures GetBackendFromStr(name) == Ok(TTY) <==> Backends.TryFromStr(name) == Ok(Backends.Tty)
    ensures GetBackendFromStr(name) == Ok(X11) <==> Backends.TryFromStr(name) == Ok(Backends.X11)
  {
  }
}
