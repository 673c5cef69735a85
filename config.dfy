/** The configuration read from the environment at start-up. The environment
    is a parameter: a map from variable name to value, where an absent key is
    an unset variable. */
module Config {
  import opened Wrappers
  import opened Text
  import opened Paths

  type Env = map<string, string>

  datatype Settings = Settings(
    apiKey: Option<string>,
    apiBase: string,
    apiVersion: string,
    dualDirectoryMode: bool,
    radarrWatchDir: Path,
    radarrDownloadDir: Path,
    sonarrWatchDir: Path,
    sonarrDownloadDir: Path,
    watchInterval: int,
    checkInterval: int,
    maxRetries: int,
    maxStatusCheckFailures: int,
    allowZip: bool,
    seedPreference: int,
    postProcessing: int,
    queueImmediately: bool,
    progressInterval: int)

  const DefaultWatchDir := "/app/watch"
  const DefaultDownloadDir := "/app/downloads"

  /** `os.getenv(key)`. */
  function Getenv(env: Env, key: string): Option<string>
  {
    if key in env then Some(env[key]) else None
  }

  /** `os.getenv(key, default)`. */
  function GetenvOr(env: Env, key: string, default: string): string
  {
    if key in env then env[key] else default
  }

  /** A variable counts as set when it is present and not empty (Python truthiness). */
  predicate IsSet(env: Env, key: string)
  {
    key in env && env[key] != ""
  }

  const SubdirKeys: seq<string> := ["RADARR_WATCH_SUBDIR", "RADARR_DOWNLOAD_SUBDIR",
                                    "SONARR_WATCH_SUBDIR", "SONARR_DOWNLOAD_SUBDIR"]

  /** `any([...])` over the four subdirectory variables. */
  predicate DualDirectoryMode(env: Env)
  {
    IsSet(env, "RADARR_WATCH_SUBDIR") || IsSet(env, "RADARR_DOWNLOAD_SUBDIR")
    || IsSet(env, "SONARR_WATCH_SUBDIR") || IsSet(env, "SONARR_DOWNLOAD_SUBDIR")
  }

  /** `subdir or default`. */
  function SubdirOr(env: Env, key: string, default: string): (r: string)
    ensures IsSet(env, key) ==> r == env[key]
    ensures !IsSet(env, key) ==> r == default
  {
    if IsSet(env, key) then env[key] else default
  }

  /** `int(os.getenv(key, default))`: a value that is not a decimal integer
      raises `ValueError` when the configuration is loaded. */
  function IntSetting(env: Env, key: string, default: int): (r: Result<int, string>)
    ensures r.Err? <==> key in env && ParseInt(env[key]).None?
    ensures key !in env ==> r == Ok(default)
  {
    if key !in env then Ok(default)
    else match ParseInt(env[key])
      case Some(n) => Ok(n)
      case None => Err("invalid literal for int(): " + key)
  }

  /** `os.getenv(key, "false").lower() == "true"`. */
  predicate FlagSetting(env: Env, key: string)
  {
    Lower(GetenvOr(env, key, "false")) == "true"
  }

  /** The directories of the four roles, derived as in the class body of `Config`. */
  function Directories(env: Env): (dirs: (Path, Path, Path, Path))
  {
    var watch := ParsePath(GetenvOr(env, "WATCH_DIR", DefaultWatchDir));
    var download := ParsePath(GetenvOr(env, "DOWNLOAD_DIR", DefaultDownloadDir));
    if DualDirectoryMode(env) then
      (Join(watch, SubdirOr(env, "RADARR_WATCH_SUBDIR", "radarr")),
       Join(download, SubdirOr(env, "RADARR_DOWNLOAD_SUBDIR", "radarr")),
       Join(watch, SubdirOr(env, "SONARR_WATCH_SUBDIR", "sonarr")),
       Join(download, SubdirOr(env, "SONARR_DOWNLOAD_SUBDIR", "sonarr")))
    else
      (watch, download, watch, download)
  }

  /** The whole configuration, or the error that loading it raises. */
  function Load(env: Env): (r: Result<Settings, string>)
    ensures r.Ok? ==> r.value.dualDirectoryMode == DualDirectoryMode(env)
  {
    var dirs := Directories(env);
    var watchInterval := IntSetting(env, "WATCH_INTERVAL", 60);
    var checkInterval := IntSetting(env, "CHECK_INTERVAL", 300);
    var maxRetries := IntSetting(env, "MAX_RETRIES", 2);
    var maxFailures := IntSetting(env, "MAX_STATUS_CHECK_FAILURES", 5);
    var seed := IntSetting(env, "SEED_PREFERENCE", 1);
    var post := IntSetting(env, "POST_PROCESSING", -1);
    var progress := IntSetting(env, "PROGRESS_INTERVAL", 15);
    if watchInterval.Err? then Err(watchInterval.error)
    else if checkInterval.Err? then Err(checkInterval.error)
    else if maxRetries.Err? then Err(maxRetries.error)
    else if maxFailures.Err? then Err(maxFailures.error)
    else if seed.Err? then Err(seed.error)
    else if post.Err? then Err(post.error)
    else if progress.Err? then Err(progress.error)
    else Ok(Settings(
      Getenv(env, "TORBOX_API_KEY"),
      GetenvOr(env, "TORBOX_API_BASE", "https://api.torbox.app"),
      GetenvOr(env, "TORBOX_API_VERSION", "v1"),
      DualDirectoryMode(env),
      dirs.0, dirs.1, dirs.2, dirs.3,
      watchInterval.value, checkInterval.value, maxRetries.value, maxFailures.value,
      FlagSetting(env, "ALLOW_ZIP"),
      seed.value, post.value,
      FlagSetting(env, "QUEUE_IMMEDIATELY"),
      progress.value))
  }

  /** The environment variables read with `int()`. */
  const IntKeys: seq<string> := ["WATCH_INTERVAL", "CHECK_INTERVAL", "MAX_RETRIES",
    "MAX_STATUS_CHECK_FAILURES", "SEED_PREFERENCE", "POST_PROCESSING", "PROGRESS_INTERVAL"]

  /** Loading fails exactly when one of the integer settings is set to a text
      that `int()` rejects. */
  lemma LoadFailsIff(env: Env)
    ensures Load(env).Err? <==> exists k :: k in IntKeys && k in env && ParseInt(env[k]).None?
  {
    LoadFailsOnSetting(env);
    SettingFailsIff(env);
  }

  lemma SettingFailsIff(env: Env)
    ensures (|| IntSetting(env, "WATCH_INTERVAL", 60).Err? || IntSetting(env, "CHECK_INTERVAL", 300).Err?
             || IntSetting(env, "MAX_RETRIES", 2).Err? || IntSetting(env, "MAX_STATUS_CHECK_FAILURES", 5).Err?
             || IntSetting(env, "SEED_PREFERENCE", 1).Err? || IntSetting(env, "POST_PROCESSING", -1).Err?
             || IntSetting(env, "PROGRESS_INTERVAL", 15).Err?)
            <==> exists k :: k in IntKeys && k in env && ParseInt(env[k]).None?
  {
    assert IntKeys[0] == "WATCH_INTERVAL" && IntKeys[1] == "CHECK_INTERVAL" && IntKeys[2] == "MAX_RETRIES";
    assert IntKeys[3] == "MAX_STATUS_CHECK_FAILURES" && IntKeys[4] == "SEED_PREFERENCE";
    assert IntKeys[5] == "POST_PROCESSING" && IntKeys[6] == "PROGRESS_INTERVAL";
  }

  /** `Load` fails exactly when one of its `int()` readings raises. */
  lemma LoadFailsOnSetting(env: Env)
    ensures Load(env).Err? <==>
      || IntSetting(env, "WATCH_INTERVAL", 60).Err? || IntSetting(env, "CHECK_INTERVAL", 300).Err?
      || IntSetting(env, "MAX_RETRIES", 2).Err? || IntSetting(env, "MAX_STATUS_CHECK_FAILURES", 5).Err?
      || IntSetting(env, "SEED_PREFERENCE", 1).Err? || IntSetting(env, "POST_PROCESSING", -1).Err?
      || IntSetting(env, "PROGRESS_INTERVAL", 15).Err?
  {
  }

  /** An integer setting written with whitespace around its numeral loads as
      that number, as `int()` strips the text first. */
  lemma SpacedSettingLoads(env: Env, key: string, default: int, i: int, w1: string, w2: string)
    requires key in env && env[key] == w1 + IntToString(i) + w2
    requires AllSpace(w1) && AllSpace(w2)
    ensures IntSetting(env, key, default) == Ok(i)
  {
    IntToStringRoundTrip(i, w1, w2);
  }

  /** `Config.validate()`: raises `ValueError` when the API key is unset or empty. */
  function Validate(s: Settings): (r: Result<(), string>)
    ensures r.Err? <==> s.apiKey.None? || s.apiKey == Some("")
  {
    if s.apiKey.None? || s.apiKey.value == "" then
      Err("TORBOX_API_KEY is not set. Please provide a valid API key.")
    else Ok(())
  }

  /** Dual-directory mode holds exactly when one of the four subdirectory
      variables is set to a non-empty value. */
  lemma DualModeIff(env: Env)
    ensures DualDirectoryMode(env) <==> exists k :: k in SubdirKeys && IsSet(env, k)
  {
    if DualDirectoryMode(env) {
      if IsSet(env, "RADARR_WATCH_SUBDIR") { assert SubdirKeys[0] == "RADARR_WATCH_SUBDIR"; }
      else if IsSet(env, "RADARR_DOWNLOAD_SUBDIR") { assert SubdirKeys[1] == "RADARR_DOWNLOAD_SUBDIR"; }
      else if IsSet(env, "SONARR_WATCH_SUBDIR") { assert SubdirKeys[2] == "SONARR_WATCH_SUBDIR"; }
      else { assert SubdirKeys[3] == "SONARR_DOWNLOAD_SUBDIR"; }
    }
  }

  /** In dual mode each directory is the base joined with its subdirectory,
      or with "radarr"/"sonarr" when that variable is unset or empty. */
  lemma DualModeDirectories(env: Env)
    requires DualDirectoryMode(env)
    ensures var watch := ParsePath(GetenvOr(env, "WATCH_DIR", DefaultWatchDir));
            var download := ParsePath(GetenvOr(env, "DOWNLOAD_DIR", DefaultDownloadDir));
            && Directories(env).0 == Join(watch, if IsSet(env, "RADARR_WATCH_SUBDIR") then env["RADARR_WATCH_SUBDIR"] else "radarr")
            && Directories(env).1 == Join(download, if IsSet(env, "RADARR_DOWNLOAD_SUBDIR") then env["RADARR_DOWNLOAD_SUBDIR"] else "radarr")
            && Directories(env).2 == Join(watch, if IsSet(env, "SONARR_WATCH_SUBDIR") then env["SONARR_WATCH_SUBDIR"] else "sonarr")
            && Directories(env).3 == Join(download, if IsSet(env, "SONARR_DOWNLOAD_SUBDIR") then env["SONARR_DOWNLOAD_SUBDIR"] else "sonarr")
  {
  }

  /** In dual mode, Radarr's and Sonarr's download directories are apart
      whenever neither download subdirectory is overridden. */
  lemma DualModeDefaultsApart(env: Env)
    requires DualDirectoryMode(env)
    requires !IsSet(env, "RADARR_DOWNLOAD_SUBDIR") && !IsSet(env, "SONARR_DOWNLOAD_SUBDIR")
    ensures Directories(env).1 != Directories(env).3
  {
    var download := ParsePath(GetenvOr(env, "DOWNLOAD_DIR", DefaultDownloadDir));
    assert Directories(env).1 == Join(download, "radarr") && Directories(env).3 == Join(download, "sonarr");
    DefaultChildrenApart(download);
  }

  /** The two default subdirectories of one base are apart. */
  lemma DefaultChildrenApart(p: Path)
    ensures Join(p, "radarr") != Join(p, "sonarr")
  {
    assert IsComponent("radarr") && IsComponent("sonarr");
    assert "radarr"[0] != "sonarr"[0];
    ChildrenApart(p, "radarr", "sonarr");
  }

  lemma ChildrenApart(p: Path, a: string, b: string)
    requires IsComponent(a) && IsComponent(b) && a != b
    ensures Join(p, a) != Join(p, b)
  {
    JoinComponent(p, a);
    JoinComponent(p, b);
  }

  /** In single mode both applications share the base watch and download paths. */
  lemma SingleModeShared(env: Env)
    requires !DualDirectoryMode(env)
    ensures Directories(env).0 == Directories(env).2 == ParsePath(GetenvOr(env, "WATCH_DIR", DefaultWatchDir))
    ensures Directories(env).1 == Directories(env).3 == ParsePath(GetenvOr(env, "DOWNLOAD_DIR", DefaultDownloadDir))
  {
  }

  /** With an empty environment: single mode at /app/watch and /app/downloads,
      progress every 15 seconds, and a configuration that fails validation. */
  lemma EmptyEnvironment()
    ensures Load(map[]).Ok?
    ensures var s := Load(map[]).value;
            && !s.dualDirectoryMode
            && s.radarrWatchDir == s.sonarrWatchDir == Path(true, ["app", "watch"])
            && s.radarrDownloadDir == s.sonarrDownloadDir == Path(true, ["app", "downloads"])
            && s.progressInterval == 15 && s.watchInterval == 60 && s.checkInterval == 300
            && s.maxRetries == 2 && s.maxStatusCheckFailures == 5
            && !s.allowZip && !s.queueImmediately
            && Validate(s).Err?
  {
    var w, d := Path(true, ["app", "watch"]), Path(true, ["app", "downloads"]);
    EmptyDirectories();
    EmptyFlag("ALLOW_ZIP");
    EmptyFlag("QUEUE_IMMEDIATELY");
    assert Load(map[]) == Ok(Settings(None, "https://api.torbox.app", "v1", false, w, d, w, d,
                                      60, 300, 2, 5, false, 1, -1, false, 15));
  }

  /** With an empty environment both applications share the default paths. */
  lemma EmptyDirectories()
    ensures Directories(map[]) == (Path(true, ["app", "watch"]), Path(true, ["app", "downloads"]),
                                   Path(true, ["app", "watch"]), Path(true, ["app", "downloads"]))
  {
    var env: Env := map[];
    assert !DualDirectoryMode(env);
    assert GetenvOr(env, "WATCH_DIR", DefaultWatchDir) == DefaultWatchDir;
    assert GetenvOr(env, "DOWNLOAD_DIR", DefaultDownloadDir) == DefaultDownloadDir;
    DefaultPaths();
  }

  /** An unset flag is off. */
  lemma EmptyFlag(key: string)
    ensures !FlagSetting(map[], key)
  {
    LowerFalse();
    assert "false"[0] != "true"[0];
  }

  lemma LowerFalse()
    ensures Lower("false") == "false"
  {
    assert Lower("e") == "e";
    assert Lower("se") == "se";
    assert Lower("lse") == "lse";
    assert Lower("alse") == "alse";
  }

  lemma DefaultPaths()
    ensures ParsePath(DefaultWatchDir) == Path(true, ["app", "watch"])
    ensures ParsePath(DefaultDownloadDir) == Path(true, ["app", "downloads"])
  {
    DefaultWatchPath();
    DefaultDownloadPath();
  }

  lemma DefaultWatchPath()
    ensures ParsePath("/app/watch") == Path(true, ["app", "watch"])
  {
    assert PathToString(Path(true, ["app", "watch"])) == "/app/watch";
    ParsedAs("/app/watch", Path(true, ["app", "watch"]));
  }

  lemma DefaultDownloadPath()
    ensures ParsePath("/app/downloads") == Path(true, ["app", "downloads"])
  {
    assert PathToString(Path(true, ["app", "downloads"])) == "/app/downloads";
    ParsedAs("/app/downloads", Path(true, ["app", "downloads"]));
  }

  lemma ParsedAs(s: string, p: Path)
    requires WellFormed(p) && s == PathToString(p)
    ensures ParsePath(s) == p
  {
    ParsePathToString(p);
  }
}
