/** Loading the optional `microservice.toml`: open the file, read it whole, deserialise
    it as a `Config`, and collapse every failure along the way to "no config". */
module ConfigFile {
  import opened Wrappers
  import opened Address

  /** The file's one recognised field. */
  datatype Config = Config(address: SocketAddr)

  /** The `std::io::ErrorKind`s the file steps can report (the rest behave alike). */
  datatype ErrorKind = NotFound | PermissionDenied | InvalidData | Interrupted | Other

  /** The error `toml::from_str` reports. */
  datatype TomlError = TomlError(message: string)

  /** `std::io::Error`: one raised by the operating system, or one built with
      `io::Error::new(kind, cause)` around a deserialisation error. */
  datatype IoError =
    | Os(kind: ErrorKind)
    | Custom(kind: ErrorKind, cause: TomlError)

  /** An open file. */
  datatype FileHandle = FileHandle(descriptor: nat)

  /** What the file system answers to `File::open` and `read_to_string`. */
  datatype FileSystem = FileSystem(
    open: string -> Result<FileHandle, IoError>,
    readToString: FileHandle -> Result<string, IoError>)

  /** `toml::from_str::<Config>` */
  type TomlDecoder = string -> Result<Config, TomlError>

  /** The path is fixed; the `--config` command-line value is never consulted. */
  const ConfigPath: string := "microservice.toml"

  /** The `and_then` chain of open, read and deserialise, before the error is dropped. */
  function ReadConfig(fs: FileSystem, decode: TomlDecoder): Result<Config, IoError>
  {
    fs.open(ConfigPath)
      .AndThen(file => fs.readToString(file))
      .AndThen(buffer => decode(buffer).MapErr(err => Custom(Other, err)))
  }

  /** The whole config step: the error is logged as a warning (left out) and replaced
      by `()`, then `.ok()` turns the outcome into an `Option`. It never aborts: the
      result is a config exactly when all three steps succeed, and otherwise `None`. */
  function LoadConfig(fs: FileSystem, decode: TomlDecoder): (c: Option<Config>)
    ensures c.Some? <==>
      && fs.open(ConfigPath).Ok?
      && fs.readToString(fs.open(ConfigPath).value).Ok?
      && decode(fs.readToString(fs.open(ConfigPath).value).value).Ok?
    ensures c.Some? ==>
      c == Some(decode(fs.readToString(fs.open(ConfigPath).value).value).value)
  {
    ReadConfig(fs, decode).MapErr(err => Unit).ToOption()
  }

  /** Each failure point reaches the warning with its own error: an open or read
      error unchanged, a deserialisation error wrapped as `ErrorKind::Other`. */
  lemma ReadConfigErrors(fs: FileSystem, decode: TomlDecoder)
    ensures fs.open(ConfigPath).Err? ==>
      ReadConfig(fs, decode) == Err(fs.open(ConfigPath).error)
    ensures fs.open(ConfigPath).Ok? && fs.readToString(fs.open(ConfigPath).value).Err? ==>
      ReadConfig(fs, decode) == Err(fs.readToString(fs.open(ConfigPath).value).error)
    ensures
      && fs.open(ConfigPath).Ok?
      && fs.readToString(fs.open(ConfigPath).value).Ok?
      && decode(fs.readToString(fs.open(ConfigPath).value).value).Err?
      ==> ReadConfig(fs, decode) ==
          Err(Custom(Other, decode(fs.readToString(fs.open(ConfigPath).value).value).error))
  {
  }

  /** Whatever went wrong, the config step yields "no config" rather than an error. */
  lemma LoadConfigFailuresAreAbsence(fs: FileSystem, decode: TomlDecoder)
    ensures ReadConfig(fs, decode).Err? ==> LoadConfig(fs, decode) == None
    ensures ReadConfig(fs, decode).Ok? ==> LoadConfig(fs, decode) == Some(ReadConfig(fs, decode).value)
  {
  }
}
