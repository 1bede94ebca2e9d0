/** `get_config` of exao_dap_client/config.py: the service URL, token and iRODS URL, each taken
    from the command-line arguments when given, else from the environment, else from a default;
    the first call's `Config` is cached and returned by every later call. The environment is a
    parameter, and the thread-local cache is one object. */
module Configuration {
  import opened Wrappers

  const DefaultServiceUrl: string := "https://dap.xwcl.science"
  const DefaultIrodsUrl: string := "irods://data.cyverse.org"

  /** The parsed command line, as `get_config` reads it: `service_url`, `token`, `irods_url`. */
  datatype Args = Args(serviceUrl: Option<string>, token: Option<string>, irodsUrl: Option<string>)

  /** `os.environ`. */
  type Environment = map<string, string>

  /** A Python truth test of an optional string: None and '' are false. */
  predicate Truthy(v: Option<string>)
  {
    v.Some? && v.value != ""
  }

  /** The argument `field` picks from `args`, or None when `args` itself is None (falsy). */
  function ArgValue(args: Option<Args>, field: Args -> Option<string>): Option<string>
  {
    if args.Some? then field(args.value) else None
  }

  /** The precedence `get_config` applies: a truthy argument, else the environment variable when
      it is set (even to ''), else the default. */
  function Chosen(arg: Option<string>, env: Environment, variable: string, default: Option<string>): Option<string>
  {
    if Truthy(arg) then arg
    else if variable in env then Some(env[variable])
    else default
  }

  function ServiceUrl(args: Option<Args>, env: Environment): string
  {
    Chosen(ArgValue(args, (a: Args) => a.serviceUrl), env, "DAP_SERVICE_URL", Some(DefaultServiceUrl)).value
  }

  function Token(args: Option<Args>, env: Environment): Option<string>
  {
    Chosen(ArgValue(args, (a: Args) => a.token), env, "DAP_TOKEN", None)
  }

  function IrodsUrl(args: Option<Args>, env: Environment): string
  {
    Chosen(ArgValue(args, (a: Args) => a.irodsUrl), env, "DAP_IRODS_URL", Some(DefaultIrodsUrl)).value
  }

  /** A truthy argument wins over the environment and the default. */
  lemma ArgumentsWin(a: Args, env: Environment)
    ensures Truthy(a.serviceUrl) ==> ServiceUrl(Some(a), env) == a.serviceUrl.value
    ensures Truthy(a.token) ==> Token(Some(a), env) == a.token
    ensures Truthy(a.irodsUrl) ==> IrodsUrl(Some(a), env) == a.irodsUrl.value
  {
  }

  /** Falsy arguments (None or '') never override: the result is what no arguments give. */
  lemma FalsyArgumentsNeverOverride(a: Args, env: Environment)
    ensures !Truthy(a.serviceUrl) ==> ServiceUrl(Some(a), env) == ServiceUrl(None, env)
    ensures !Truthy(a.token) ==> Token(Some(a), env) == Token(None, env)
    ensures !Truthy(a.irodsUrl) ==> IrodsUrl(Some(a), env) == IrodsUrl(None, env)
  {
  }

  /** Without arguments, a set environment variable wins over the default. */
  lemma EnvironmentBeatsDefault(env: Environment)
    ensures ServiceUrl(None, env) == if "DAP_SERVICE_URL" in env then env["DAP_SERVICE_URL"] else DefaultServiceUrl
    ensures IrodsUrl(None, env) == if "DAP_IRODS_URL" in env then env["DAP_IRODS_URL"] else DefaultIrodsUrl
    ensures Token(None, env) == if "DAP_TOKEN" in env then Some(env["DAP_TOKEN"]) else None
  {
  }

  /** The token has no default: it is None exactly when no truthy token argument is given and
      DAP_TOKEN is not set. */
  lemma TokenMayBeAbsent(args: Option<Args>, env: Environment)
    ensures Token(args, env).None? <==> !Truthy(ArgValue(args, (a: Args) => a.token)) && "DAP_TOKEN" !in env
  {
  }

  /** The `Config` dataclass. */
  class Config {
    const serviceUrl: string
    const token: Option<string>
    const irodsUrl: string

    constructor (serviceUrl: string, token: Option<string>, irodsUrl: string)
      ensures this.serviceUrl == serviceUrl && this.token == token && this.irodsUrl == irodsUrl
    {
      this.serviceUrl := serviceUrl;
      this.token := token;
      this.irodsUrl := irodsUrl;
    }
  }

  /** The thread-local `_LOCAL`, whose `config` attribute is null until set. */
  class ConfigCache {
    var config: Config?

    constructor ()
      ensures config == null
    {
      config := null;
    }

    /** `get_config(args)`: the first call builds a fresh `Config` by the precedence rule and
        caches it; every later call returns that same object, whatever its arguments or the
        environment. */
    method GetConfig(args: Option<Args>, env: Environment) returns (c: Config)
      modifies this
      ensures old(config) != null ==> c == old(config) && config == old(config)
      ensures old(config) == null ==> fresh(c) && config == c
      ensures old(config) == null ==>
                c.serviceUrl == ServiceUrl(args, env) && c.token == Token(args, env) && c.irodsUrl == IrodsUrl(args, env)
    {
      if config == null {
        var serviceUrl := if "DAP_SERVICE_URL" in env then env["DAP_SERVICE_URL"] else DefaultServiceUrl;
        var token: Option<string> := if "DAP_TOKEN" in env then Some(env["DAP_TOKEN"]) else None;
        var irodsUrl := if "DAP_IRODS_URL" in env then env["DAP_IRODS_URL"] else DefaultIrodsUrl;
        if args.Some? {
          var a := args.value;
          if Truthy(a.serviceUrl) {
            serviceUrl := a.serviceUrl.value;
          }
          if Truthy(a.token) {
            token := a.token;
          }
          if Truthy(a.irodsUrl) {
            irodsUrl := a.irodsUrl.value;
          }
        }
        config := new Config(serviceUrl, token, irodsUrl);
      }
      c := config;
    }
  }

  /** Two calls in a row return the same object: the second call's arguments and environment
      are ignored. */
  method CallTwice(cache: ConfigCache, args1: Option<Args>, env1: Environment, args2: Option<Args>, env2: Environment)
    returns (c1: Config, c2: Config)
    modifies cache
    ensures c1 == c2 && cache.config == c1
    ensures old(cache.config) == null ==> c1.serviceUrl == ServiceUrl(args1, env1) && c1.token == Token(args1, env1)
  {
    c1 := cache.GetConfig(args1, env1);
    c2 := cache.GetConfig(args2, env2);
  }
}
