/** The settings the Rust server starts with (`main`, action `on`): the
    command line first, then the config file, then the built-in defaults. */
module RustSettings {
  import opened Wrappers
  import RustCli

  /** The fields of the config file the synchronisation core uses. */
  datatype Config = Config(password: Option<string>, control: Option<bool>, slides: seq<string>)

  /** What the server state is built with. */
  datatype Settings = Settings(port: int, password: string, control: bool, slides: seq<string>)

  const DefaultPort := 3000
  const DefaultConfigFile := "skate.json"

  /** The config file read: the `--config` path, else `skate.json` in the working directory. */
  function ConfigFile(args: RustCli.Args): (path: string)
    ensures args.config.Some? ==> path == args.config.value
    ensures args.config.None? ==> path == DefaultConfigFile
  {
    args.config.GetOr(DefaultConfigFile)
  }

  /** The effective settings: the command-line password overrides the config
      password and both default to the empty string; control is on when either
      source turns it on; the port defaults to 3000. */
  function Resolve(args: RustCli.Args, config: Config): (s: Settings)
    ensures args.password.Some? ==> s.password == args.password.value
    ensures args.password.None? && config.password.Some? ==> s.password == config.password.value
    ensures args.password.None? && config.password.None? ==> s.password == ""
    ensures s.control <==> args.control || config.control == Some(true)
    ensures args.port.Some? ==> s.port == args.port.value
    ensures args.port.None? ==> s.port == DefaultPort
    ensures s.slides == config.slides
  {
    var password := match args.password
      case Some(p) => p
      case None => config.password.GetOr("");
    Settings(args.port.GetOr(DefaultPort), password, args.control || config.control.GetOr(false), config.slides)
  }
}
