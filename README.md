# random-service: bind-address resolution and byte response, in Dafny

A model of the one decision the `random-service` microservice makes and of the one value it computes. The microservice is a small hyper HTTP server written in Rust.

- **Address resolution** (`resolution.dfy`, `config.dfy`). At startup the server picks its socket address. First it takes the `--address`/`-a` value if one was given, else the `ADDRESS` environment variable. That string is then parsed as a socket address. If no string was chosen or it does not parse, the server uses the `address` field of `microservice.toml`, provided the file could be opened, read and deserialised. Otherwise it uses 127.0.0.1:8080. The chain is a series of `Option`/`Result` combinators. Here each combinator is a function in `wrappers.dfy`, and `Resolve` applies them in the same order as the source.
- **Response** (`handler.dfy`). Every request gets status 200. The body is the decimal rendering of a random `u8`. The byte is an input to `Respond`.

Foreign pieces are parameters, not definitions. These are `SocketAddr::from_str` (`AddrParser`), `toml::from_str` (`TomlDecoder`), `File::open` with `read_to_string` (`FileSystem`) and `env::var` (`Environment`). Every property below therefore holds for every behaviour those collaborators may have.

**Precedence as the code has it.** The chain reads naturally as "first valid source wins", under which an unparseable `-a` would fall through to `ADDRESS`. The code does not do this. `value_of("address").or_else(env)` picks the string before `and_then(parse)` runs (src/main.rs:77-80). So a present but unparseable `-a` skips `ADDRESS` and goes straight to the config file or the default. The model follows the code. `FirstValidResolve` is the "first valid source wins" reading. `ResolveVersusFirstValid` proves that the two differ in exactly one situation: `-a` is unparseable, `ADDRESS` parses, and `ADDRESS` names an address other than the file-or-default one. `UnparseableCliIgnoresValidEnv` shows this on one concrete pair of inputs.

## Model

| member | source | states |
|---|---|---|
| Resolution.Resolve | src/main.rs:76-83 | the chain always yields an address, so the `expect` at its end can never panic |
| Resolution.CliParsedWins | src/main.rs:76-80 | a present `-a` value that parses is the result, whatever `ADDRESS` and the config file hold |
| Resolution.CliShadowsEnv | src/main.rs:77-79 | once `-a` is present, the value of `ADDRESS` has no influence on the result |
| Resolution.CliUnparseableSkipsEnv | src/main.rs:77-82 | a present `-a` value that does not parse yields the config file's address if one loaded, else 127.0.0.1:8080, whatever `ADDRESS` holds |
| Resolution.EnvParsedWins | src/main.rs:79-80 | with no `-a`, an `ADDRESS` that parses is the result, whatever the config file holds |
| Resolution.FileWhenChosenFails | src/main.rs:80-81 | when the chosen string is absent or unparseable and the config file loaded, the result is the file's `address` |
| Resolution.DefaultWhenNothing | src/main.rs:82 | when no source yields an address, the result is exactly 127.0.0.1 port 8080 |
| Resolution.ResolveVersusFirstValid | src/main.rs:76-83 | the chain differs from "first present-and-parseable source wins" exactly when `-a` is unparseable, `ADDRESS` parses, and `ADDRESS` names an address other than the file-or-default one |
| Resolution.UnparseableCliIgnoresValidEnv | src/main.rs:77-82 | for any parser that rejects `not-an-address` and accepts `0.0.0.0:9090`, those two inputs with no config file give 127.0.0.1:8080, where first-valid-wins gives 0.0.0.0:9090 |
| Resolution.StartupAddress | src/main.rs:61-83 | the bound address always comes from one of four sources: a parsed `-a` value, a parsed `ADDRESS`, the loaded config, or the default |
| Resolution.ConfigFlagIgnored | src/main.rs:34-41 | the `--config` value is accepted but never changes the bound address |
| Resolution.OnlyAddressVarConsulted | src/main.rs:79 | only the `ADDRESS` variable matters; an unset variable and a non-Unicode one count alike |
| ConfigFile.LoadConfig | src/main.rs:61-74 | a config is produced exactly when open, read and deserialisation all succeed, and it is the deserialised one; any failure means "no config", never an abort |
| ConfigFile.ReadConfigErrors | src/main.rs:61-70 | open and read errors reach the warning unchanged; a deserialisation error reaches it wrapped as `io::ErrorKind::Other` |
| ConfigFile.LoadConfigFailuresAreAbsence | src/main.rs:71-74 | `map_err(warn)` followed by `.ok()` turns every error into `None` and keeps every success |
| Handler.ToDecimal | src/main.rs:57 | the rendering is canonical: at least one digit, no leading zero unless it is "0", and exactly as many digits as the value needs |
| Handler.DecimalRoundTrip | src/main.rs:57 | reading the rendering back gives the number again |
| Handler.DecimalRoundTripBack | src/main.rs:57 | every canonical digit string is the rendering of its own value |
| Handler.ByteToDecimal | src/main.rs:55-57 | a byte renders as 1 to 3 digits, canonical, that read back as the byte |
| Handler.ByteLiteralIsCanonicalByte | src/main.rs:57 | the body pattern (one digit; two digits not starting with 0; `1` and two digits; `2`, `0`-`4` and a digit; `25` and `0`-`5`) accepts exactly the canonical renderings of 0 to 255 |
| Handler.ByteBodiesAreByteLiterals | src/main.rs:55-57 | every byte's body matches the pattern, and every string that matches it is the body of exactly one byte |
| Handler.Respond | src/main.rs:53-58 | every response has status 200 and a body that matches the pattern and reads back as the sampled byte |
| Handler.RespondIgnoresRequest | src/main.rs:53-57 | the response does not depend on the request |

## Left out

- The hyper server: `make_service_fn`, `service_fn`, `Server::bind` and `server.await` (src/main.rs:49-59, 86-90). These are network I/O and tokio's concurrent request serving. Bind failures belong to them too.
- `rand::random::<u8>()` (src/main.rs:55). Randomness and uniformity cannot be stated here, so the byte is a parameter of `Respond`.
- clap's argument parsing (src/main.rs:22-42). Its outcome is the `Matches` record.
- `value_of` (src/main.rs:77) panics on a `-a` value that is not valid UTF-8. `Matches.address` holds only strings, so that abort is not modelled.
- The internals of `File::open`, `read_to_string`, `toml::from_str`, `SocketAddr::from_str` and `env::var`. These are file I/O and standard-library or foreign code, so each one is a function parameter.
- Evaluation order. `or_else` evaluates `env::var("ADDRESS")` only when `-a` is absent. The config file, however, is loaded before the chain runs, whichever source wins. The model is pure, so it captures what the result depends on (`CliShadowsEnv`) but not when the lookups happen.
- IPv6 socket addresses keep only the eight address groups and the port. The flow info and scope id never affect a decision here.
- `dotenv` loading and the `pretty_env_logger`/`log` output (src/main.rs:19-20, 44-45, 54, 56, 72, 85, 88-89), including the warning for a failed config file. They are process-environment side effects and diagnostics, and no decision depends on them.
