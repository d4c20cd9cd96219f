/** The TOML values the configuration deserialisers receive.

    A TOML integer and a TOML float both deserialise into an `f64`
    temperature, so the model carries every number as the `f64` it
    becomes. */
module Toml {
  import Numbers

  datatype Value =
    | String(text: string)
    | Number(asF64: Numbers.F64)
    | Boolean(flag: bool)
    | Datetime(raw: string)
    | Array(items: seq<Value>)
    | Table(entries: map<string, Value>)

  const ExpectedString: string := "invalid type: expected a string"
}
