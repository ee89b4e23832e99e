/** translator_service.py: the translate entry point with its blank check and
    its error shaping, the attempt counting of SmartSession.request, and the
    proxy-to-environment mapping of _setup_proxy. The translation engine and
    the HTTP session are not modelled; what they do on one call is an input. */
module Translator {
  import opened Wrappers
  import opened PyStrings
  import opened Settings

  // ---------------------------------------------------------------------------
  // translate(text)
  // ---------------------------------------------------------------------------

  /** What the translation engine does with one text: return a translation or
      raise an exception with the given message (str(e)). */
  datatype EngineOutcome = Translated(text: string) | Raised(message: string)

  const MaxErrorLength: nat := 40
  const KeptErrorPrefix: nat := 37

  /** The exception text with newlines turned into spaces and carriage
      returns dropped. */
  function FlattenError(e: string): string {
    ReplaceAll(ReplaceAll(e, "\n", " "), "\r", "")
  }

  /** The message cut to 37 characters plus "..." when over 40 characters. */
  function TruncateError(m: string): string {
    if |m| > MaxErrorLength then m[..KeptErrorPrefix] + "..." else m
  }

  /** The message shown in place of a translation when the engine raised. */
  function ErrorMarker(e: string): string {
    "[Err: " + TruncateError(FlattenError(e)) + "]"
  }

  /** translate(text): blank input translates to "" without asking the engine;
      otherwise the engine's answer, or the error marker when it raised. */
  function Translate(text: string, engine: EngineOutcome): (r: string)
    ensures IsBlank(text) ==> r == ""
    ensures !IsBlank(text) && engine.Translated? ==> r == engine.text
    ensures !IsBlank(text) && engine.Raised? ==> r == ErrorMarker(engine.message)
  {
    if text == "" || Strip(text) == "" then ""
    else match engine
      case Translated(t) => t
      case Raised(e) => ErrorMarker(e)
  }

  /** The flattened message holds no line break, and has one character per
      character of the exception text other than a carriage return. */
  lemma FlattenErrorClean(e: string)
    ensures '\n' !in FlattenError(e) && '\r' !in FlattenError(e)
    ensures |FlattenError(e)| <= |e|
    ensures '\r' !in e ==> |FlattenError(e)| == |e|
  {
    var m1 := ReplaceAll(e, "\n", " ");
    ReplaceCharFree(e, '\n', " ", '\r');
    ReplaceCharLength(e, '\n', " ");
    ReplaceCharFree(m1, '\r', "", '\n');
    ReplaceCharLength(m1, '\r', "");
    if '\r' !in e {
      assert !Contains(m1, "\r") by { CharAbsent(m1, "\r", '\r'); }
      ReplaceAllAbsent(m1, "\r", "");
    }
  }

  /** A message over 40 characters becomes exactly 40: its first 37 and
      "..."; a shorter one is kept as it is. */
  lemma TruncateErrorBound(m: string)
    ensures |TruncateError(m)| <= MaxErrorLength
    ensures |m| > MaxErrorLength ==>
              |TruncateError(m)| == MaxErrorLength && TruncateError(m) == m[..37] + "..."
    ensures |m| <= MaxErrorLength ==> TruncateError(m) == m
  {
  }

  /** The error marker starts with "[Err: ", ends with "]", carries at most 40
      characters of message and no line break, so the overlay recognises it
      and it fits on one line. */
  lemma ErrorMarkerShape(e: string)
    ensures StartsWith(ErrorMarker(e), "[Err")
    ensures |ErrorMarker(e)| <= 6 + MaxErrorLength + 1
    ensures '\n' !in ErrorMarker(e) && '\r' !in ErrorMarker(e)
  {
    var m := FlattenError(e);
    FlattenErrorClean(e);
    TruncateErrorBound(m);
    var t := TruncateError(m);
    assert t == m || t == m[..37] + "...";
    assert forall c :: c in t ==> c in m || c == '.';
    var r := ErrorMarker(e);
    assert r == "[Err: " + t + "]";
    assert r[..4] == "[Err";
  }

  // ---------------------------------------------------------------------------
  // SmartSession.request
  // ---------------------------------------------------------------------------

  const MaxRetries: nat := 3
  const DefaultTimeout: real := 5.0

  /** How one request ended: whether a response came back, how many attempts
      were made and how many times the session was rebuilt. */
  datatype RequestResult = RequestResult(succeeded: bool, attempts: nat, refreshes: nat)

  /** The retry policy on the outcomes the network would give to attempts
      1 to 4 (true for a response, false for an exception): the first success
      among the first three returns at once; after three failures the session
      is refreshed once and the fourth attempt decides. */
  function Plan(outcomes: seq<bool>): (r: RequestResult)
    requires |outcomes| == MaxRetries + 1
  {
    if outcomes[0] then RequestResult(true, 1, 0)
    else if outcomes[1] then RequestResult(true, 2, 0)
    else if outcomes[2] then RequestResult(true, 3, 0)
    else RequestResult(outcomes[3], 4, 1)
  }

  /** At most four attempts; the refresh happens exactly when the first three
      all fail, and a success on attempt k <= 3 is the first success and
      returns with no refresh. The request succeeds iff some attempt made
      succeeded, and every attempt before the last one made failed. */
  lemma PlanPolicy(outcomes: seq<bool>)
    requires |outcomes| == MaxRetries + 1
    ensures 1 <= Plan(outcomes).attempts <= MaxRetries + 1
    ensures Plan(outcomes).refreshes == 1 <==> !outcomes[0] && !outcomes[1] && !outcomes[2]
    ensures Plan(outcomes).refreshes <= 1
    ensures forall k :: 0 <= k < Plan(outcomes).attempts - 1 ==> !outcomes[k]
    ensures Plan(outcomes).succeeded == outcomes[Plan(outcomes).attempts - 1]
    ensures forall k :: (1 <= k <= MaxRetries && outcomes[k - 1]
                         && (forall j :: 0 <= j < k - 1 ==> !outcomes[j])) ==>
              Plan(outcomes) == RequestResult(true, k, 0)
  {
  }

  /** The timeout the call is made with: the caller's, or 5 when none was given. */
  function EffectiveTimeout(timeout: Option<real>): (t: real)
    ensures timeout.Some? ==> t == timeout.value
    ensures timeout.None? ==> t == DefaultTimeout
  {
    timeout.GetOr(DefaultTimeout)
  }

  /** SmartSession: `generation` counts the sessions built so far (one by the
      constructor, one per refresh); the session object itself, its adapter
      and its randomly chosen User-Agent are not modelled. */
  class SmartSession {
    var generation: nat

    constructor ()
      ensures generation == 1
    {
      generation := 1;
    }

    /** request(method, url, **kwargs), given the outcome each attempt would
        have, and the caller's timeout keyword if any. */
    method Request(outcomes: seq<bool>, timeout: Option<real>)
      returns (r: RequestResult, usedTimeout: real)
      requires |outcomes| == MaxRetries + 1
      modifies this
      ensures r == Plan(outcomes)
      ensures generation == old(generation) + r.refreshes
      ensures usedTimeout == EffectiveTimeout(timeout)
    {
      var kwTimeout := timeout;
      var attempt := 1;
      while attempt <= MaxRetries
        invariant 1 <= attempt <= MaxRetries + 1
        invariant forall k :: 0 <= k < attempt - 1 ==> !outcomes[k]
        invariant attempt > 1 ==> kwTimeout == Some(EffectiveTimeout(timeout))
        invariant attempt == 1 ==> kwTimeout == timeout
        invariant generation == old(generation)
      {
        if kwTimeout.None? {
          kwTimeout := Some(DefaultTimeout);
        }
        if outcomes[attempt - 1] {
          return RequestResult(true, attempt, 0), kwTimeout.value;
        }
        attempt := attempt + 1;
      }
      RefreshSession();
      return RequestResult(outcomes[MaxRetries], MaxRetries + 1, 1), kwTimeout.value;
    }

    /** _refresh_session: a new session replaces the old one. */
    method RefreshSession()
      modifies this
      ensures generation == old(generation) + 1
    {
      generation := generation + 1;
    }
  }

  // ---------------------------------------------------------------------------
  // _setup_proxy
  // ---------------------------------------------------------------------------

  const HttpProxyVar: string := "HTTP_PROXY"
  const HttpsProxyVar: string := "HTTPS_PROXY"

  /** The value one proxy variable is set to: the explicit address when set,
      else the SOCKS5 address with its scheme, else nothing. */
  function ProxyValue(explicit: Option<string>, socks5: Option<string>): Option<string> {
    if Truthy(explicit) then explicit
    else if Truthy(socks5) then Some("socks5://" + socks5.value)
    else None
  }

  /** One variable set to the value, when there is one. */
  function SetVar(env: map<string, string>, name: string, value: Option<string>): map<string, string> {
    if value.Some? then env[name := value.value] else env
  }

  /** The environment after _setup_proxy. */
  function ProxyEnv(env: map<string, string>, cfg: ProxyConfig): map<string, string> {
    if !cfg.enabled then env
    else
      var e1 := SetVar(env, HttpProxyVar, ProxyValue(cfg.http, cfg.socks5));
      SetVar(e1, HttpsProxyVar, ProxyValue(cfg.https, cfg.socks5))
  }

  /** A disabled proxy sets nothing; an enabled one sets HTTP_PROXY to the http
      address if set, else to "socks5://" and the SOCKS5 address if that is
      set, else leaves it; HTTPS_PROXY likewise from the https address; no
      other variable changes. */
  lemma ProxyEnvRules(env: map<string, string>, cfg: ProxyConfig)
    ensures !cfg.enabled ==> ProxyEnv(env, cfg) == env
    ensures forall k :: k != HttpProxyVar && k != HttpsProxyVar ==>
              (k in ProxyEnv(env, cfg) <==> k in env)
              && (k in env ==> ProxyEnv(env, cfg)[k] == env[k])
    ensures cfg.enabled && Truthy(cfg.http) ==>
              HttpProxyVar in ProxyEnv(env, cfg) && ProxyEnv(env, cfg)[HttpProxyVar] == cfg.http.value
    ensures cfg.enabled && !Truthy(cfg.http) && Truthy(cfg.socks5) ==>
              HttpProxyVar in ProxyEnv(env, cfg)
              && ProxyEnv(env, cfg)[HttpProxyVar] == "socks5://" + cfg.socks5.value
    ensures cfg.enabled && Truthy(cfg.https) ==>
              HttpsProxyVar in ProxyEnv(env, cfg) && ProxyEnv(env, cfg)[HttpsProxyVar] == cfg.https.value
    ensures cfg.enabled && !Truthy(cfg.https) && Truthy(cfg.socks5) ==>
              HttpsProxyVar in ProxyEnv(env, cfg)
              && ProxyEnv(env, cfg)[HttpsProxyVar] == "socks5://" + cfg.socks5.value
    ensures !Truthy(cfg.http) && !Truthy(cfg.socks5) ==>
              (HttpProxyVar in ProxyEnv(env, cfg) <==> HttpProxyVar in env)
              && (HttpProxyVar in env ==> ProxyEnv(env, cfg)[HttpProxyVar] == env[HttpProxyVar])
    ensures !Truthy(cfg.https) && !Truthy(cfg.socks5) ==>
              (HttpsProxyVar in ProxyEnv(env, cfg) <==> HttpsProxyVar in env)
              && (HttpsProxyVar in env ==> ProxyEnv(env, cfg)[HttpsProxyVar] == env[HttpsProxyVar])
  {
  }

  /** The process environment (os.environ) that _setup_proxy writes to. */
  class Environment {
    var vars: map<string, string>

    constructor (initial: map<string, string>)
      ensures vars == initial
    {
      vars := initial;
    }

    /** _setup_proxy, writing the variables one assignment at a time. */
    method SetupProxy(cfg: ProxyConfig)
      modifies this
      ensures vars == ProxyEnv(old(vars), cfg)
    {
      if cfg.enabled {
        if Truthy(cfg.http) {
          vars := vars[HttpProxyVar := cfg.http.value];
        } else if Truthy(cfg.socks5) {
          var socksUrl := "socks5://" + cfg.socks5.value;
          vars := vars[HttpProxyVar := socksUrl];
        }
        if Truthy(cfg.https) {
          vars := vars[HttpsProxyVar := cfg.https.value];
        } else if Truthy(cfg.socks5) {
          var socksUrl := "socks5://" + cfg.socks5.value;
          vars := vars[HttpsProxyVar := socksUrl];
        }
      }
    }
  }
}
