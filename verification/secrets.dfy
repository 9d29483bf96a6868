/** The secrets service: a two-field cache (`cachedSecrets`,
    `cacheExpiry`) in front of the secrets manager, with the process
    environment as the local source and the fallback. The clock reading
    and the outcome of the remote call are parameters. */
module Secrets {
  import opened Results
  import opened JsValue
  import Decimal

  /** `5 * 60 * 1000`: five minutes, in milliseconds. */
  const CacheDuration: int := 5 * 60 * 1000

  /** `cachedSecrets` and `cacheExpiry`; `None` is `null`. */
  datatype CacheState = CacheState(cached: Option<Record>, expiry: Option<int>)

  /** The state the constructor sets up. */
  const Initial := CacheState(None, None)

  /** What the secrets-manager call and the parse of its `SecretString`
      come to: the parsed object, or a thrown error. */
  datatype Fetch = Fetched(secrets: Record) | FetchFailed

  /** `this.cachedSecrets && this.cacheExpiry && Date.now() <
      this.cacheExpiry`. A cached object is always truthy; an expiry of 0
      is not. */
  predicate CacheValid(st: CacheState, now: int) {
    st.cached.Some? && st.expiry.Some? && st.expiry.value != 0 && now < st.expiry.value
  }

  /** `process.env.NODE_ENV === 'production' && process.env.AWS_REGION`. */
  predicate UsesRemote(env: Env) {
    StrictEq(EnvGet(env, "NODE_ENV"), JStr("production")) && Truthy(EnvGet(env, "AWS_REGION"))
  }

  /** `getSecrets` calls the secrets manager: the cache is not valid and
      the remote source is configured. */
  predicate Fetches(st: CacheState, env: Env, now: int) {
    !CacheValid(st, now) && UsesRemote(env)
  }

  /** `process.env[name] || fallback`. */
  function EnvOr(env: Env, name: string, fallback: string): (v: string)
    ensures name in env && env[name] != "" ==> v == env[name]
    ensures !(name in env && env[name] != "") ==> v == fallback
  {
    var e := EnvGet(env, name);
    if Truthy(e) then e.s else fallback
  }

  /** The secrets object built from the environment, used locally and as
      the fallback when the remote fetch fails. */
  function EnvSecrets(env: Env): (s: Record)
    ensures s.Keys == {"db_host", "db_port", "db_name", "db_user", "db_password"}
    ensures forall k | k in s :: s[k].JStr?
  {
    map[
      "db_host" := JStr(EnvOr(env, "DB_HOST", "localhost")),
      "db_port" := JStr(EnvOr(env, "DB_PORT", "5432")),
      "db_name" := JStr(EnvOr(env, "DB_NAME", "todoapp")),
      "db_user" := JStr(EnvOr(env, "DB_USER", "todoapp_user")),
      "db_password" := JStr(EnvOr(env, "DB_PASSWORD", "todoapp_password"))
    ]
  }

  /** None of the database variables is set (or all are empty). */
  predicate NoDbEnv(env: Env) {
    forall name | name in {"DB_HOST", "DB_PORT", "DB_NAME", "DB_USER", "DB_PASSWORD"} ::
      !(name in env && env[name] != "")
  }

  const DefaultSecrets: Record := map[
    "db_host" := JStr("localhost"),
    "db_port" := JStr("5432"),
    "db_name" := JStr("todoapp"),
    "db_user" := JStr("todoapp_user"),
    "db_password" := JStr("todoapp_password")
  ]

  /** `getSecrets`: the cached object while the cache is valid; otherwise
      the remote object, or the environment's when the remote source is
      not configured or fails, cached for five minutes from `now`. */
  function GetSecrets(st: CacheState, env: Env, now: int, fetch: Fetch): (r: (CacheState, Record))
    ensures CacheValid(st, now) ==> r == (st, st.cached.value)
    ensures !CacheValid(st, now) ==> r.0 == CacheState(Some(r.1), Some(now + CacheDuration))
    ensures Fetches(st, env, now) && fetch.Fetched? ==> r.1 == fetch.secrets
    ensures !CacheValid(st, now) && !(UsesRemote(env) && fetch.Fetched?) ==> r.1 == EnvSecrets(env)
  {
    if CacheValid(st, now) then (st, st.cached.value)
    else
      var secrets :=
        if UsesRemote(env) then
          match fetch
          case Fetched(s) => s
          case FetchFailed => EnvSecrets(env)
        else EnvSecrets(env);
      (CacheState(Some(secrets), Some(now + CacheDuration)), secrets)
  }

  /** `clearCache`. */
  function ClearCache(st: CacheState): (r: CacheState)
    ensures forall now | true :: !CacheValid(r, now)
  {
    Initial
  }

  /** The outcome of the remote call matters only when it is made. */
  lemma FetchOnlyWhenNeeded(st: CacheState, env: Env, now: int, f1: Fetch, f2: Fetch)
    requires !Fetches(st, env, now)
    ensures GetSecrets(st, env, now, f1) == GetSecrets(st, env, now, f2)
  {
  }

  /** Whatever a refresh returned is returned again, with no fetch and no
      state change, by every call before the expiry; at the expiry a new
      refresh happens. */
  lemma CachedUntilExpiry(st: CacheState, env: Env, t1: int, t2: int, f1: Fetch, f2: Fetch)
    requires !CacheValid(st, t1) && t1 + CacheDuration != 0
    ensures var (st1, s1) := GetSecrets(st, env, t1, f1);
      && (t2 < t1 + CacheDuration ==> !Fetches(st1, env, t2) && GetSecrets(st1, env, t2, f2) == (st1, s1))
      && (t2 == t1 + CacheDuration ==>
            CacheValid(st1, t2 - 1) && GetSecrets(st1, env, t2, f2).0.expiry == Some(t2 + CacheDuration))
  {
  }

  /** A failed fetch sticks: until the expiry the fallback is served even
      when the remote source has recovered. */
  lemma FallbackSticks(st: CacheState, env: Env, t1: int, t2: int, recovered: Record)
    requires !CacheValid(st, t1) && UsesRemote(env) && t1 + CacheDuration != 0
    requires t2 < t1 + CacheDuration
    ensures GetSecrets(GetSecrets(st, env, t1, FetchFailed).0, env, t2, Fetched(recovered)).1 == EnvSecrets(env)
  {
  }

  /** After `clearCache` the next call always refreshes. */
  lemma ClearForcesRefresh(st: CacheState, env: Env, now: int, fetch: Fetch)
    ensures Fetches(ClearCache(st), env, now) == UsesRemote(env)
    ensures GetSecrets(ClearCache(st), env, now, fetch).0.expiry == Some(now + CacheDuration)
  {
  }

  /** Without database variables the local and fallback secrets are the
      built-in defaults. */
  lemma EnvSecretsDefaults(env: Env)
    requires NoDbEnv(env)
    ensures EnvSecrets(env) == DefaultSecrets
  {
    assert "DB_HOST" in {"DB_HOST", "DB_PORT", "DB_NAME", "DB_USER", "DB_PASSWORD"};
    assert "DB_PORT" in {"DB_HOST", "DB_PORT", "DB_NAME", "DB_USER", "DB_PASSWORD"};
    assert "DB_NAME" in {"DB_HOST", "DB_PORT", "DB_NAME", "DB_USER", "DB_PASSWORD"};
    assert "DB_USER" in {"DB_HOST", "DB_PORT", "DB_NAME", "DB_USER", "DB_PASSWORD"};
    assert "DB_PASSWORD" in {"DB_HOST", "DB_PORT", "DB_NAME", "DB_USER", "DB_PASSWORD"};
  }

  /** The `ssl` option: `false`, or `{ rejectUnauthorized: false }`. */
  datatype Ssl = SslOff | SslNoVerify

  /** The connection settings handed to the PostgreSQL pool; `port` is
      `None` when `parseInt` gives NaN. */
  datatype DbConfig = DbConfig(
    host: JValue, port: Option<int>, database: JValue, user: JValue, password: JValue, ssl: Ssl)

  /** `x` with its fractional part dropped, toward zero. */
  function Truncate(x: real): (n: int)
    ensures x >= 0.0 ==> n as real <= x < n as real + 1.0
    ensures x < 0.0 ==> n as real - 1.0 < x <= n as real
  {
    if x >= 0.0 then x.Floor else -((-x).Floor)
  }

  /** `parseInt(v)`, for the strings and numbers a secrets object holds;
      every other value reads as NaN. */
  function ParsePort(v: JValue): (r: Option<int>)
    ensures v.JStr? && |v.s| > 0 && Decimal.AllDigits(v.s) ==> r == Some(Decimal.DigitsValue(v.s))
    ensures v.JNum? ==> r.Some? && (v.n >= 0.0 ==> r.value as real <= v.n < r.value as real + 1.0)
    ensures !v.JStr? && !v.JNum? ==> r.None?
  {
    match v
    case JStr(s) =>
      if |s| > 0 && Decimal.AllDigits(s) then
        Decimal.ParseIntStopsAtNonDigit(s, "");
        assert s + "" == s;
        Decimal.ParseInt(s)
      else Decimal.ParseInt(s)
    case JNum(n) => Some(Truncate(n))
    case _ => None
  }

  /** `getDatabaseConfig`: renames the secrets' keys, parses the port and
      turns SSL on, without certificate checks, only in production. */
  function GetDatabaseConfig(st: CacheState, env: Env, now: int, fetch: Fetch): (r: (CacheState, DbConfig))
    ensures var (st1, s) := GetSecrets(st, env, now, fetch);
      && r.0 == st1
      && r.1.host == Get(s, "db_host")
      && r.1.port == ParsePort(Get(s, "db_port"))
      && r.1.database == Get(s, "db_name")
      && r.1.user == Get(s, "db_user")
      && r.1.password == Get(s, "db_password")
    ensures r.1.ssl == SslNoVerify <==> "NODE_ENV" in env && env["NODE_ENV"] == "production"
  {
    var (st1, s) := GetSecrets(st, env, now, fetch);
    var ssl := if StrictEq(EnvGet(env, "NODE_ENV"), JStr("production")) then SslNoVerify else SslOff;
    (st1, DbConfig(
      Get(s, "db_host"), ParsePort(Get(s, "db_port")), Get(s, "db_name"),
      Get(s, "db_user"), Get(s, "db_password"), ssl))
  }

  /** Outside production, with no database variables, the first call
      caches and returns the built-in defaults. */
  lemma LocalDefaultSecrets(env: Env, now: int, fetch: Fetch)
    requires NoDbEnv(env) && !("NODE_ENV" in env && env["NODE_ENV"] == "production")
    ensures GetSecrets(Initial, env, now, fetch).1 == DefaultSecrets
  {
    EnvSecretsDefaults(env);
  }

  /** The built-in defaults name the local database and its user. */
  lemma DefaultSecretsNames()
    ensures Get(DefaultSecrets, "db_host") == JStr("localhost")
    ensures Get(DefaultSecrets, "db_name") == JStr("todoapp")
    ensures Get(DefaultSecrets, "db_user") == JStr("todoapp_user")
    ensures Get(DefaultSecrets, "db_password") == JStr("todoapp_password")
  {
  }

  /** The built-in port string parses to 5432. */
  lemma DefaultSecretsPort()
    ensures ParsePort(Get(DefaultSecrets, "db_port")) == Some(5432)
  {
    assert DefaultSecrets["db_port"] == JStr("5432");
    Decimal.ParseDefaultPort();
  }

  /** Outside production, with no database variables, the first call
      yields the built-in local configuration on port 5432. */
  lemma LocalDefaultConfig(env: Env, now: int, fetch: Fetch)
    requires NoDbEnv(env) && !("NODE_ENV" in env && env["NODE_ENV"] == "production")
    ensures GetDatabaseConfig(Initial, env, now, fetch).1
      == DbConfig(JStr("localhost"), Some(5432), JStr("todoapp"), JStr("todoapp_user"), JStr("todoapp_password"), SslOff)
  {
    LocalDefaultSecrets(env, now, fetch);
    DefaultSecretsNames();
    DefaultSecretsPort();
    var c := GetDatabaseConfig(Initial, env, now, fetch).1;
    assert c.ssl == SslOff;
  }
}
