/**
 * The three decisions of the HTTP client wrapper: how the request interceptor
 * composes the outgoing headers, how the response interceptor checks and unwraps
 * the `{ code, data, errorMsg }` envelope, and how a transport failure becomes
 * the message shown to the user.
 */
module Request {
  import opened Wrappers
  import Strings
  import PermissionStore

  const VersionHeader: string := "X-System-Version"
  const AuthorizationHeader: string := "Authorization"
  const BearerPrefix: string := "Bearer "
  const DefaultVersion: string := "1.0.0"

  /** `getSystemVersion`: the configured version, or `1.0.0` when it is unset or empty. */
  function SystemVersion(env: Option<string>): (v: string)
    ensures v != ""
    ensures env.Some? && env.value != "" ==> v == env.value
    ensures env.None? || env.value == "" ==> v == DefaultVersion
  {
    if env.Some? && env.value != "" then env.value else DefaultVersion
  }

  /**
   * The headers once the built-in ones are in place: the version always, and
   * `Authorization` exactly when there is a token.
   */
  function WithBuiltIns(headers: map<string, string>, version: string, token: string): (h: map<string, string>)
    ensures VersionHeader in h && h[VersionHeader] == version
    ensures AuthorizationHeader in h <==> token != ""
    ensures token != "" ==> h[AuthorizationHeader] == BearerPrefix + token
    ensures forall k :: k != VersionHeader && k != AuthorizationHeader ==>
      (k in h <==> k in headers) && (k in headers ==> h[k] == headers[k])
  {
    var versioned := headers[VersionHeader := version];
    if token != "" then versioned[AuthorizationHeader := BearerPrefix + token]
    else versioned - {AuthorizationHeader}
  }

  /** The custom headers copied over `base`: every custom entry wins, the rest is kept. */
  function Override(base: map<string, string>, custom: Option<map<string, string>>): (h: map<string, string>)
    ensures forall k :: k in h <==> k in base || (custom.Some? && k in custom.value)
    ensures custom.Some? ==> forall k :: k in custom.value ==> h[k] == custom.value[k]
    ensures forall k :: k in base && (custom.None? || k !in custom.value) ==> h[k] == base[k]
  {
    match custom
    case None => base
    case Some(c) => base + c
  }

  /** The headers a request leaves the interceptor with. */
  function Outgoing(headers: map<string, string>, version: string, token: string, custom: Option<map<string, string>>): map<string, string> {
    Override(WithBuiltIns(headers, version, token), custom)
  }

  /** Unless a custom header says otherwise, `Authorization` is `Bearer <token>` exactly when there is a token. */
  lemma AuthorizationRule(headers: map<string, string>, version: string, token: string, custom: Option<map<string, string>>)
    requires custom.None? || AuthorizationHeader !in custom.value
    ensures var h := Outgoing(headers, version, token, custom);
      && (AuthorizationHeader in h <==> token != "")
      && (token != "" ==> h[AuthorizationHeader] == BearerPrefix + token)
  {
  }

  /** The version header is always sent, with the system version unless a custom header replaces it. */
  lemma VersionRule(headers: map<string, string>, version: string, token: string, custom: Option<map<string, string>>)
    ensures VersionHeader in Outgoing(headers, version, token, custom)
    ensures custom.None? || VersionHeader !in custom.value ==>
      Outgoing(headers, version, token, custom)[VersionHeader] == version
  {
  }

  /** Custom headers are copied last, so each one is sent as given, `Authorization` included. */
  lemma CustomHeadersWin(headers: map<string, string>, version: string, token: string, custom: map<string, string>)
    ensures forall k :: k in custom ==> Outgoing(headers, version, token, Some(custom))[k] == custom[k]
  {
  }

  /** Passing a request through the interceptor twice sends the same headers as passing it once. */
  lemma {:induction false} OutgoingIdempotent(headers: map<string, string>, version: string, token: string, custom: Option<map<string, string>>)
    ensures var once := Outgoing(headers, version, token, custom);
      Outgoing(once, version, token, custom) == once
  {
    var once := Outgoing(headers, version, token, custom);
    var twice := Outgoing(once, version, token, custom);
    assert VersionHeader != AuthorizationHeader;
    forall k | k in twice
      ensures k in once && twice[k] == once[k]
    {
      if custom.Some? && k in custom.value {
      } else if k == VersionHeader || k == AuthorizationHeader {
      } else {
        assert k in WithBuiltIns(once, version, token);
      }
    }
    assert twice.Keys == once.Keys;
  }

  /** A request configuration: its headers, the custom headers and the `returnData` option. */
  class RequestConfig {
    var headers: map<string, string>
    var customHeaders: Option<map<string, string>>
    var returnData: Option<bool>

    constructor(headers: map<string, string>, customHeaders: Option<map<string, string>>, returnData: Option<bool>)
      ensures this.headers == headers && this.customHeaders == customHeaders && this.returnData == returnData
    {
      this.headers := headers;
      this.customHeaders := customHeaders;
      this.returnData := returnData;
    }
  }

  /**
   * The request interceptor: sets the version header, sets or deletes
   * `Authorization` from the store's token, then copies the custom headers one
   * by one. `env` is the configured version.
   */
  method InterceptRequest(config: RequestConfig, store: PermissionStore.Store, env: Option<string>)
    modifies config
    ensures config.headers == Outgoing(old(config.headers), SystemVersion(env), store.token, config.customHeaders)
    ensures config.customHeaders == old(config.customHeaders) && config.returnData == old(config.returnData)
  {
    config.headers := config.headers[VersionHeader := SystemVersion(env)];
    var userToken := store.GetToken();
    if userToken != "" {
      config.headers := config.headers[AuthorizationHeader := BearerPrefix + userToken];
    } else {
      config.headers := config.headers - {AuthorizationHeader};
    }
    assert config.headers == WithBuiltIns(old(config.headers), SystemVersion(env), store.token);
    if config.customHeaders.Some? {
      config.headers := CopyHeaders(config.headers, config.customHeaders.value);
    }
  }

  /** `Object.keys(customHeaders).forEach(…)`: copies each custom header over `base`. */
  method CopyHeaders(base: map<string, string>, custom: map<string, string>) returns (h: map<string, string>)
    ensures h == Override(base, Some(custom))
  {
    h := base;
    var remaining := custom.Keys;
    ghost var copied: map<string, string> := map[];
    while remaining != {}
      invariant remaining <= custom.Keys
      invariant copied.Keys == custom.Keys - remaining
      invariant forall k :: k in copied ==> copied[k] == custom[k]
      invariant h == base + copied
      decreases remaining
    {
      var key :| key in remaining;
      AddAfterMerge(base, copied, key, custom[key]);
      h := h[key := custom[key]];
      copied := copied[key := custom[key]];
      remaining := remaining - {key};
    }
    CopiedAll(copied, custom);
  }

  lemma CopiedAll(copied: map<string, string>, custom: map<string, string>)
    requires copied.Keys == custom.Keys
    requires forall k :: k in copied ==> copied[k] == custom[k]
    ensures copied == custom
  {
  }

  lemma AddAfterMerge(base: map<string, string>, copied: map<string, string>, key: string, value: string)
    ensures (base + copied)[key := value] == base + copied[key := value]
  {
  }

  /** The response body: `code` is absent when the server sends none. */
  datatype Envelope<T> = Envelope(code: Option<int>, data: T, errorMsg: Option<string>)

  /** What a successful call resolves with. */
  datatype Payload<T> = DataOnly(data: T) | WholeEnvelope(envelope: Envelope<T>)

  /** How the response interceptor settles a call, with the message it shows on rejection. */
  datatype Settled<T> = Resolved(payload: Payload<T>) | Rejected(reason: Envelope<T>, toast: string)

  const SuccessCode: int := 200
  const DefaultToast: string := "请求失败"

  /** `returnData` defaults to true. */
  function ReturnsData(returnData: Option<bool>): bool {
    returnData.GetOr(true)
  }

  /** The response interceptor for a delivered response. */
  function OnResponse<T>(envelope: Envelope<T>, returnData: Option<bool>): (s: Settled<T>)
    ensures s.Rejected? <==> envelope.code != Some(SuccessCode)
    ensures s.Rejected? ==> s.reason == envelope && s.toast != ""
    ensures s.Rejected? && envelope.errorMsg.Some? && envelope.errorMsg.value != "" ==> s.toast == envelope.errorMsg.value
    ensures s.Rejected? && (envelope.errorMsg.None? || envelope.errorMsg.value == "") ==> s.toast == DefaultToast
    ensures s.Resolved? && ReturnsData(returnData) ==> s.payload == DataOnly(envelope.data)
    ensures s.Resolved? && !ReturnsData(returnData) ==> s.payload == WholeEnvelope(envelope)
  {
    if envelope.code != Some(SuccessCode) then
      var toast := if envelope.errorMsg.Some? && envelope.errorMsg.value != "" then envelope.errorMsg.value else DefaultToast;
      Rejected(envelope, toast)
    else if ReturnsData(returnData) then Resolved(DataOnly(envelope.data))
    else Resolved(WholeEnvelope(envelope))
  }

  /** With or without `returnData`, a successful call carries the same `data`. */
  lemma UnwrapAgrees<T>(envelope: Envelope<T>)
    requires envelope.code == Some(SuccessCode)
    ensures OnResponse(envelope, Some(true)).payload.data == OnResponse(envelope, Some(false)).payload.envelope.data
    ensures OnResponse(envelope, None) == OnResponse(envelope, Some(true))
  {
  }

  /** A transport failure: `status` is that of the response, absent when there was none. */
  datatype Failure = Failure(status: Option<nat>, message: string)

  const StatusMessages: map<nat, string> := map[
    401 := "未授权，请重新登录",
    403 := "拒绝访问",
    404 := "请求地址错误",
    500 := "服务器内部错误"]
  const TimeoutWord: string := "timeout"
  const TimeoutMessage: string := "请求超时"
  const NetworkMessage: string := "网络请求失败"
  const FailedPrefix: string := "请求失败("
  const FailedSuffix: string := ")"

  /** The decimal digits of a number, as a template literal writes it. */
  function Decimal(n: nat): (s: string)
    ensures |s| >= 1 && forall i :: 0 <= i < |s| ==> '0' <= s[i] <= '9'
  {
    if n < 10 then [('0' as int + n) as char] else Decimal(n / 10) + [('0' as int + n % 10) as char]
  }

  /** The number a string of decimal digits denotes. */
  function DecimalValue(s: string): nat
    requires forall i :: 0 <= i < |s| ==> '0' <= s[i] <= '9'
  {
    if s == [] then 0 else DecimalValue(s[..|s| - 1]) * 10 + (s[|s| - 1] as int - '0' as int)
  }

  lemma {:induction false} DecimalRoundTrip(n: nat)
    ensures DecimalValue(Decimal(n)) == n
  {
    if n >= 10 {
      DecimalRoundTrip(n / 10);
      var s := Decimal(n);
      assert s[..|s| - 1] == Decimal(n / 10);
    }
  }

  /** The message for a status with no fixed message. */
  function FailedWith(status: nat): string {
    FailedPrefix + Decimal(status) + FailedSuffix
  }

  /** The error interceptor's message. */
  function ErrorMessage(f: Failure): string {
    if f.status.Some? then
      var status := f.status.value;
      if status == 401 then "未授权，请重新登录"
      else if status == 403 then "拒绝访问"
      else if status == 404 then "请求地址错误"
      else if status == 500 then "服务器内部错误"
      else FailedWith(status)
    else if Strings.Contains(f.message, TimeoutWord) then TimeoutMessage
    else NetworkMessage
  }

  /** The message follows the table of fixed statuses, falls back to the status code, and otherwise tells a timeout from other failures. */
  lemma ErrorMessageTable(f: Failure)
    ensures f.status.Some? && f.status.value in StatusMessages ==> ErrorMessage(f) == StatusMessages[f.status.value]
    ensures f.status.Some? && f.status.value !in StatusMessages ==> ErrorMessage(f) == FailedWith(f.status.value)
    ensures f.status.None? && Strings.Contains(f.message, TimeoutWord) ==> ErrorMessage(f) == TimeoutMessage
    ensures f.status.None? && !Strings.Contains(f.message, TimeoutWord) ==> ErrorMessage(f) == NetworkMessage
  {
  }

  /** Two statuses without a fixed message give the same message only when they are equal. */
  lemma FailedWithInjective(a: nat, b: nat)
    ensures FailedWith(a) == FailedWith(b) <==> a == b
  {
    if FailedWith(a) == FailedWith(b) {
      var m := FailedWith(a);
      assert m[|FailedPrefix|..|m| - 1] == Decimal(a);
      assert FailedWith(b)[|FailedPrefix|..|m| - 1] == Decimal(b);
      DecimalRoundTrip(a);
      DecimalRoundTrip(b);
    }
  }

  /** The status can be read back from its fallback message. */
  lemma FailedWithRoundTrip(status: nat)
    ensures var m := FailedWith(status);
      && |m| > |FailedPrefix| + 1
      && (forall i :: |FailedPrefix| <= i < |m| - 1 ==> '0' <= m[i] <= '9')
      && DecimalValue(m[|FailedPrefix|..|m| - 1]) == status
  {
    var m := FailedWith(status);
    assert m[|FailedPrefix|..|m| - 1] == Decimal(status);
    DecimalRoundTrip(status);
  }
}
