/** The bind-address precedence chain run once at startup: the `--address` value, else
    the `ADDRESS` environment variable, parsed; else the config file's address; else
    127.0.0.1:8080. */
module Resolution {
  import opened Wrappers
  import opened Address
  import opened ConfigFile

  /** The command-line values clap matched: `--address`/`-a` and `--config`/`-c`. */
  datatype Matches = Matches(address: Option<string>, config: Option<string>)

  /** Why `env::var` gave no value. */
  datatype VarError = NotPresent | NotUnicode

  /** `std::env::var` */
  type Environment = string -> Result<string, VarError>

  const AddressVar: string := "ADDRESS"

  /** `addr.parse().ok()` */
  function ParseOpt(s: string, parse: AddrParser): Option<SocketAddr>
  {
    parse(s).ToOption()
  }

  /** What the chain falls back to once the chosen string gave nothing. */
  function Fallback(config: Option<Config>): SocketAddr
  {
    match config
    case Some(c) => c.address
    case None => DefaultAddress
  }

  /** The chain as written: the command-line string, or else the environment string,
      is chosen FIRST and only then parsed; the config file and the default follow.
      Its final `or_else` is a constant `Some`, so the chain never ends in `None`. */
  function Resolve(cli: Option<string>, env: Option<string>, config: Option<Config>, parse: AddrParser)
    : (r: Option<SocketAddr>)
    ensures r.Some?
  {
    cli
      .OrElse(() => env)
      .AndThen(s => ParseOpt(s, parse))
      .OrElse(() => config.Map((c: Config) => c.address))
      .OrElse(() => Some(DefaultAddress))
  }

  /** A command-line value that parses wins over everything else. */
  lemma CliParsedWins(s: string, env: Option<string>, config: Option<Config>, parse: AddrParser)
    requires parse(s).Ok?
    ensures Resolve(Some(s), env, config, parse) == Some(parse(s).value)
  {
  }

  /** Once a command-line value is given, the environment plays no part. */
  lemma CliShadowsEnv(s: string, env1: Option<string>, env2: Option<string>, config: Option<Config>,
                      parse: AddrParser)
    ensures Resolve(Some(s), env1, config, parse) == Resolve(Some(s), env2, config, parse)
  {
  }

  /** A command-line value that does not parse skips `ADDRESS` altogether: the result
      is the config file's address if one loaded, else the default. */
  lemma CliUnparseableSkipsEnv(s: string, env: Option<string>, config: Option<Config>, parse: AddrParser)
    requires parse(s).Err?
    ensures Resolve(Some(s), env, config, parse) == Some(Fallback(config))
  {
  }

  /** Without a command-line value, an `ADDRESS` that parses wins over the file. */
  lemma EnvParsedWins(e: string, config: Option<Config>, parse: AddrParser)
    requires parse(e).Ok?
    ensures Resolve(None, Some(e), config, parse) == Some(parse(e).value)
  {
  }

  /** When the chosen string is absent or does not parse, a loaded config file decides. */
  lemma FileWhenChosenFails(cli: Option<string>, env: Option<string>, c: Config, parse: AddrParser)
    requires (cli.Some? && parse(cli.value).Err?) || (cli.None? && (env.None? || parse(env.value).Err?))
    ensures Resolve(cli, env, Some(c), parse) == Some(c.address)
  {
  }

  /** When no source yields an address, the result is 127.0.0.1 port 8080. */
  lemma DefaultWhenNothing(cli: Option<string>, env: Option<string>, parse: AddrParser)
    requires (cli.Some? && parse(cli.value).Err?) || (cli.None? && (env.None? || parse(env.value).Err?))
    ensures Resolve(cli, env, None, parse) == Some(SocketAddr(V4(127, 0, 0, 1), 8080))
  {
  }

  /** The first present entry of a list of candidates, in order. */
  function FirstValid(sources: seq<Option<SocketAddr>>): (r: Option<SocketAddr>)
    ensures r.Some? <==> exists i :: 0 <= i < |sources| && sources[i].Some?
    ensures r.Some? ==> exists i :: 0 <= i < |sources| && sources[i] == r &&
                                  forall j :: 0 <= j < i ==> sources[j].None?
  {
    if sources == [] then None
    else if sources[0].Some? then sources[0]
    else
      var r := FirstValid(sources[1..]);
      assert forall i :: 0 < i < |sources| ==> sources[i] == sources[1..][i - 1];
      r
  }

  /** The "first valid source wins" reading: each string source counts only when it is
      present and parses, and an invalid source is treated like an absent one. */
  function FirstValidResolve(cli: Option<string>, env: Option<string>, config: Option<Config>,
                             parse: AddrParser): Option<SocketAddr>
  {
    FirstValid([cli.AndThen(s => ParseOpt(s, parse)),
                env.AndThen(s => ParseOpt(s, parse)),
                config.Map((c: Config) => c.address),
                Some(DefaultAddress)])
  }

  /** The chain as written agrees with "first valid source wins" except in exactly one
      situation: a command-line value that does not parse, next to an `ADDRESS` that
      does and that names an address other than the file-or-default one. */
  lemma ResolveVersusFirstValid(cli: Option<string>, env: Option<string>, config: Option<Config>,
                                parse: AddrParser)
    ensures Resolve(cli, env, config, parse) != FirstValidResolve(cli, env, config, parse) <==>
      && cli.Some? && parse(cli.value).Err?
      && env.Some? && parse(env.value).Ok?
      && parse(env.value).value != Fallback(config)
  {
    var sources: seq<Option<SocketAddr>> := [cli.AndThen(s => ParseOpt(s, parse)),
                    env.AndThen(s => ParseOpt(s, parse)),
                    config.Map((c: Config) => c.address),
                    Some(DefaultAddress)];
    assert FirstValid(sources[3..]) == Some(DefaultAddress);
    assert FirstValid(sources[2..]) == Some(Fallback(config));
    if cli.None? {
      assert FirstValidResolve(cli, env, config, parse) == FirstValid(sources[1..]);
    } else if parse(cli.value).Ok? {
      assert FirstValidResolve(cli, env, config, parse) == Some(parse(cli.value).value);
    } else {
      assert FirstValidResolve(cli, env, config, parse) == FirstValid(sources[1..]);
      assert Resolve(cli, env, config, parse) == Some(Fallback(config));
    }
  }

  /** An unparseable `-a` value next to a valid `ADDRESS` and no config file: the
      server binds to the default, where "first valid source wins" would pick the
      environment's address. */
  lemma UnparseableCliIgnoresValidEnv(parse: AddrParser)
    requires parse("not-an-address").Err?
    requires parse("0.0.0.0:9090") == Ok(SocketAddr(V4(0, 0, 0, 0), 9090))
    ensures Resolve(Some("not-an-address"), Some("0.0.0.0:9090"), None, parse) == Some(DefaultAddress)
    ensures FirstValidResolve(Some("not-an-address"), Some("0.0.0.0:9090"), None, parse) ==
            Some(SocketAddr(V4(0, 0, 0, 0), 9090))
  {
    CliUnparseableSkipsEnv("not-an-address", Some("0.0.0.0:9090"), None, parse);
    var sources: seq<Option<SocketAddr>> :=
      [None, Some(SocketAddr(V4(0, 0, 0, 0), 9090)), None, Some(DefaultAddress)];
    assert FirstValid(sources[1..]) == Some(SocketAddr(V4(0, 0, 0, 0), 9090));
    assert FirstValidResolve(Some("not-an-address"), Some("0.0.0.0:9090"), None, parse) ==
           FirstValid(sources);
  }

  /** The address the server binds to, from the raw inputs: the matched command line,
      the process environment, the file system and the two foreign parsers. The config
      file is loaded before the chain runs, whichever source wins. The `expect` cannot
      fail, and the address always comes from one of the four sources. */
  function StartupAddress(matches: Matches, environment: Environment, fs: FileSystem,
                          decode: TomlDecoder, parse: AddrParser): (a: SocketAddr)
    ensures
      || (matches.address.Some? && parse(matches.address.value) == Ok(a))
      || (environment(AddressVar).Ok? && parse(environment(AddressVar).value) == Ok(a))
      || LoadConfig(fs, decode) == Some(Config(a))
      || a == DefaultAddress
  {
    var config := LoadConfig(fs, decode);
    Resolve(matches.address, environment(AddressVar).ToOption(), config, parse)
      .Expect("Can't parse ADDRESS variable")
  }

  /** The `--config` value is accepted but never read: changing it changes nothing. */
  lemma ConfigFlagIgnored(address: Option<string>, path1: Option<string>, path2: Option<string>,
                          environment: Environment, fs: FileSystem, decode: TomlDecoder,
                          parse: AddrParser)
    ensures StartupAddress(Matches(address, path1), environment, fs, decode, parse) ==
            StartupAddress(Matches(address, path2), environment, fs, decode, parse)
  {
  }

  /** Of the whole environment only `ADDRESS` matters, and a variable that is unset and
      one that is not valid Unicode count alike. */
  lemma OnlyAddressVarConsulted(matches: Matches, env1: Environment, env2: Environment,
                                fs: FileSystem, decode: TomlDecoder, parse: AddrParser)
    requires env1(AddressVar).ToOption() == env2(AddressVar).ToOption()
    ensures StartupAddress(matches, env1, fs, decode, parse) ==
            StartupAddress(matches, env2, fs, decode, parse)
  {
  }
}
