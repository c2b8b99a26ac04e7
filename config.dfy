/** `config.Load`: the process configuration read from environment variables. */
module Config {
  import opened Wrappers
  import opened Domain
  import Decimal

  const DefaultBaseUrl: string := "https://api.track.toggl.com"
  const DefaultTimezone: string := "UTC"
  const MissingTokenError: string := "TOGGL_API_TOKEN is required"
  const BadWorkspaceError: string := "TOGGL_WORKSPACE_ID must be an integer"

  datatype TogglConfig = TogglConfig(apiToken: string, workspaceId: Int64, baseUrl: string)
  datatype Config = Config(toggl: TogglConfig, mysqlDsn: string, timezone: string)

  /** `os.Getenv`: an unset variable reads as the empty string. */
  function Getenv(env: map<string, string>, key: string): string {
    if key in env then env[key] else ""
  }

  /** The zero `Config` that `Load` starts from. */
  const ZeroConfig: Config := Config(TogglConfig("", 0, ""), "", "")

  /** Builds the configuration field by field, returning early on the first error
      (with the partly built value, as Go does). */
  method Load(env: map<string, string>) returns (cfg: Config, err: Option<string>)
    ensures var token, ws := Getenv(env, "TOGGL_API_TOKEN"), Getenv(env, "TOGGL_WORKSPACE_ID");
      && (token == "" <==> err == Some(MissingTokenError))
      && (token != "" && ws != "" && Decimal.ParseInt64(ws).Err? <==> err == Some(BadWorkspaceError))
      && (err.None? <==> token != "" && (ws == "" || Decimal.ParseInt64(ws).Ok?))
    ensures err.None? ==>
      var ws, url, tz := Getenv(env, "TOGGL_WORKSPACE_ID"), Getenv(env, "TOGGL_BASE_URL"), Getenv(env, "SYNC_TZ");
      && cfg.toggl.apiToken == Getenv(env, "TOGGL_API_TOKEN")
      && cfg.toggl.workspaceId == (if ws == "" then 0 else Decimal.ParseInt64(ws).value)
      && cfg.toggl.baseUrl == (if url == "" then DefaultBaseUrl else url)
      && cfg.mysqlDsn == Getenv(env, "MYSQL_DSN")
      && cfg.timezone == (if tz == "" then DefaultTimezone else tz)
  {
    cfg := ZeroConfig;
    cfg := cfg.(toggl := cfg.toggl.(apiToken := Getenv(env, "TOGGL_API_TOKEN")));
    if cfg.toggl.apiToken == "" {
      return cfg, Some(MissingTokenError);
    }
    var ws := Getenv(env, "TOGGL_WORKSPACE_ID");
    if ws != "" {
      var parsed := Decimal.ParseInt64(ws);
      if parsed.Ok? {
        cfg := cfg.(toggl := cfg.toggl.(workspaceId := parsed.value));
      } else {
        return cfg, Some(BadWorkspaceError);
      }
    }
    cfg := cfg.(toggl := cfg.toggl.(baseUrl := Getenv(env, "TOGGL_BASE_URL")));
    if cfg.toggl.baseUrl == "" {
      cfg := cfg.(toggl := cfg.toggl.(baseUrl := DefaultBaseUrl));
    }
    cfg := cfg.(mysqlDsn := Getenv(env, "MYSQL_DSN"));
    cfg := cfg.(timezone := Getenv(env, "SYNC_TZ"));
    if cfg.timezone == "" {
      cfg := cfg.(timezone := DefaultTimezone);
    }
    return cfg, None;
  }

  /** A workspace id given as decimal text is loaded as that number. */
  lemma WorkspaceIdRoundTrip(env: map<string, string>, id: Int64)
    requires Getenv(env, "TOGGL_WORKSPACE_ID") == Decimal.FormatInt64(id)
    ensures Decimal.ParseInt64(Getenv(env, "TOGGL_WORKSPACE_ID")) == Ok(id)
    ensures Getenv(env, "TOGGL_WORKSPACE_ID") != ""
  {
    Decimal.ParseFormatInt64(id);
  }
}
