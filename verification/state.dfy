/** The persisted state of `src/state.rs`: one small text file per kind of
    value, all in one cache directory.

    The directory's contents are a map from file name to file text. Whether
    a write or a removal is allowed by the file system is an input (`ok`);
    a failed write leaves the file as it was. Reading never fails for
    reasons other than absence, and stored text is always valid UTF-8. */
module State {
  import opened Outcomes
  import Lib

  /** The cache directory: file name to file contents. */
  type Store = map<string, string>

  /** A path, as its sequence of components. */
  datatype Path = Path(components: seq<string>) {
    function Join(name: string): Path {
      Path(components + [name])
    }
  }

  const AppDirName: string := "bluegone"

  /** `get_data_path`: `$XDG_CACHE_DIR/bluegone` when the variable is set,
      else `<home>/.cache/bluegone`. The variable's value and the home
      directory are inputs. */
  function DataPath(xdgCacheDir: Option<Path>, home: Path): (p: Path)
    ensures xdgCacheDir.Some? ==> p.components == xdgCacheDir.value.components + [AppDirName]
    ensures xdgCacheDir.None? ==> p.components == home.components + [".cache", AppDirName]
  {
    var cacheDir := match xdgCacheDir
      case Some(path) => path
      case None => home.Join(".cache");
    cacheDir.Join(AppDirName)
  }

  /** `file_path::<T>`: the data directory joined with `T::name()`. */
  function FilePath(xdgCacheDir: Option<Path>, home: Path, name: string): (p: Path)
    ensures |p.components| > 0 && p.components[|p.components| - 1] == name
    ensures p.components[..|p.components| - 1] == DataPath(xdgCacheDir, home).components
  {
    DataPath(xdgCacheDir, home).Join(name)
  }

  /** Different names live in different files, so the directory may be keyed
      by name alone. */
  lemma FilePathInjective(xdgCacheDir: Option<Path>, home: Path, a: string, b: string)
    requires FilePath(xdgCacheDir, home, a) == FilePath(xdgCacheDir, home, b)
    ensures a == b
  {
  }

  /** `write::<T>(value)` with `name == T::name()` and
      `text == value.to_string()`. */
  function Write(s: Store, name: string, text: string, ok: bool): (r: Result<Store>)
    ensures r.Ok? <==> ok
    ensures r.Ok? ==> name in r.value && r.value[name] == text
    ensures r.Ok? ==> r.value.Keys == s.Keys + {name}
    ensures r.Ok? ==> forall n :: n in s && n != name ==> r.value[n] == s[n]
  {
    if ok then Ok(s[name := text]) else Err(Error("failed to write state file"))
  }

  /** `read::<T>()`: `None` when the file is missing, the parsed value when
      it parses, and a panic (`unwrap`) when it does not. */
  function Read<T>(s: Store, name: string, parse: string -> Result<T>): (r: Result<Option<T>>)
    ensures name !in s ==> r == Ok(None)
    ensures name in s && parse(s[name]).Ok? ==> r == Ok(Some(parse(s[name]).value))
    ensures name in s && parse(s[name]).Err? ==> r.Err? && r.failure.Panic?
  {
    if name in s then
      match parse(s[name])
      case Ok(v) => Ok(Some(v))
      case Err(_) => Err(Panic(UnwrapErr))
    else
      Ok(None)
  }

  /** `delete::<T>()`: removing a missing file is an error. */
  function Delete(s: Store, name: string, ok: bool): (r: Result<Store>)
    ensures r.Ok? <==> name in s && ok
    ensures r.Ok? ==> r.value.Keys == s.Keys - {name}
    ensures r.Ok? ==> forall n :: n in r.value ==> r.value[n] == s[n]
  {
    if name !in s then Err(Error("No such file or directory"))
    else if !ok then Err(Error("failed to remove state file"))
    else Ok(s - {name})
  }

  /** Reading back what was written yields the parse of the written text. */
  lemma ReadAfterWrite<T>(s: Store, name: string, text: string, parse: string -> Result<T>)
    requires parse(text).Ok?
    ensures Write(s, name, text, true).Ok?
    ensures Read(Write(s, name, text, true).value, name, parse) == Ok(Some(parse(text).value))
  {
  }

  /** A write to one file is invisible to reads of every other file. */
  lemma ReadOtherAfterWrite<T>(s: Store, name: string, text: string, other: string, parse: string -> Result<T>)
    requires other != name
    ensures Read(Write(s, name, text, true).value, other, parse) == Read(s, other, parse)
  {
  }

  /** After a successful delete the value is gone. */
  lemma ReadAfterDelete<T>(s: Store, name: string, parse: string -> Result<T>)
    requires name in s
    ensures Delete(s, name, true).Ok?
    ensures Read(Delete(s, name, true).value, name, parse) == Ok(None)
  {
  }

  /** Deleting twice fails the second time. */
  lemma DeleteTwiceFails(s: Store, name: string, ok: bool)
    requires Delete(s, name, ok).Ok?
    ensures Delete(Delete(s, name, ok).value, name, ok).Err?
  {
  }

  /** The process id read back after it was written is the id written,
      whatever file name the id is kept under. */
  lemma PidReadAfterWrite(s: Store, name: string, p: Lib.Pid)
    ensures Write(s, name, Lib.PidToString(p), true).Ok?
    ensures Read(Write(s, name, Lib.PidToString(p), true).value, name, Lib.PidTryFrom) == Ok(Some(p))
  {
    Lib.PidRoundTrip(p);
  }
}
