/** Values shared by the model of the OAuth session (TwitchAuth.cs): nullable strings, the clock, the
    provider's replies as already-parsed records, the faults an operation can raise, and the events a
    session emits (requests to the provider, the callback listener's life, notifications).
    Nothing here performs I/O: every reply of the network arrives as a parameter. */
module AuthTypes {

  /** A C# nullable reference (`string?`). */
  datatype Option<+T> = None | Some(value: T) {
    function GetOr(default: T): T {
      if Some? then value else default
    }
  }

  /** `string.IsNullOrEmpty`. */
  predicate IsNullOrEmpty(s: Option<string>) {
    s.None? || s.value == ""
  }

  // ---------------------------------------------------------------- 32-bit integers

  const Int32Min: int := -0x8000_0000
  const Int32Max: int := 0x7FFF_FFFF
  const Int32Span: int := 0x1_0000_0000

  /** `expires_in` is read with `GetInt32`, so it is a 32-bit signed integer. */
  newtype int32 = x: int | -0x8000_0000 <= x <= 0x7FFF_FFFF

  /** C#'s unchecked `int` arithmetic: the two's-complement wrap-around of an exact value. */
  function Wrap32(x: int): (r: int32)
    ensures Int32Min <= x <= Int32Max ==> r as int == x
    ensures Int32Min - Int32Span <= x < Int32Min ==> r as int == x + Int32Span
  {
    ((x - Int32Min) % Int32Span + Int32Min) as int32
  }

  // ---------------------------------------------------------------- the clock

  /** Instants are whole milliseconds since `DateTime.MinValue` (0001-01-01T00:00:00Z); the largest one is
      the last whole millisecond of `DateTime.MaxValue` (9999-12-31T23:59:59.9999999). */
  const MaxInstant: int := 315_537_897_599_999
  type Instant = t: int | 0 <= t <= MaxInstant

  const SecondMs: int := 1000
  const MinuteMs: int := 60_000
  /** The session treats a token as expired this many seconds before the provider says it expires. */
  const EarlyRefreshSeconds: int := 600
  /** The watcher's short retry sleep when the computed sleep is negative. */
  const RetryDelayMs: int := 10_000

  /** `now.AddSeconds(expiresIn - 600)`: the instant the session records as the token's expiry, or `None`
      when it falls outside the range of `DateTime` (where `AddSeconds` throws). The subtraction is 32-bit
      and unchecked, so an `expires_in` within 600 of `int.MinValue` wraps around to about 68 years. */
  function ExpiryFor(now: Instant, expiresIn: int32): (r: Option<Instant>)
    ensures expiresIn as int >= Int32Min + EarlyRefreshSeconds ==>
              var providerExpiry := now + expiresIn as int * SecondMs;
              && (r.Some? <==> 0 <= providerExpiry - EarlyRefreshSeconds * SecondMs <= MaxInstant)
              && (r.Some? ==> providerExpiry - r.value == EarlyRefreshSeconds * SecondMs)
    ensures expiresIn as int < Int32Min + EarlyRefreshSeconds && r.Some? ==>
              r.value - now >= (Int32Max - EarlyRefreshSeconds) * SecondMs
  {
    var t := now + Wrap32(expiresIn as int - EarlyRefreshSeconds) as int * SecondMs;
    if 0 <= t <= MaxInstant then Some(t) else None
  }

  /** The watcher's sleep (TwitchAuth.cs:207-210): the time left until one minute before `expiresAt`,
      capped at one minute, and the fixed retry interval instead when that is negative. */
  function NextDelay(expiresAt: Instant, now: Instant): (d: int)
    ensures 0 <= d <= MinuteMs
    ensures expiresAt - now >= 2 * MinuteMs ==> d == MinuteMs
    ensures MinuteMs <= expiresAt - now ==> now + d <= expiresAt - MinuteMs
    ensures MinuteMs <= expiresAt - now <= 2 * MinuteMs ==> now + d == expiresAt - MinuteMs
    ensures expiresAt - now < MinuteMs ==> d == RetryDelayMs
    ensures expiresAt == 0 ==> d == RetryDelayMs
  {
    var delay := if expiresAt - now - MinuteMs < MinuteMs then expiresAt - now - MinuteMs else MinuteMs;
    if delay < 0 then RetryDelayMs else delay
  }

  // ---------------------------------------------------------------- the provider's replies

  /** The outcome of one HTTP call: the transport failed (`HttpRequestException` from `SendAsync` or
      `PostAsync`), or a response arrived with a status code and an already-parsed body. */
  datatype Reply<T> = TransportError | Response(status: int, body: T)

  /** `HttpResponseMessage.IsSuccessStatusCode`. */
  predicate IsSuccessStatus(status: int) {
    200 <= status <= 299
  }

  /** The token endpoint's JSON body: `access_token`, `refresh_token`, `expires_in`. */
  datatype TokenResponse = TokenResponse(accessToken: Option<string>, refreshToken: Option<string>, expiresIn: int32)

  /** One entry of the users endpoint's `data` array. */
  datatype Identity = Identity(id: Option<string>, login: Option<string>, displayName: Option<string>)

  /** The `code` and `state` query parameters of the one request the callback listener accepts. */
  datatype Callback = Callback(code: Option<string>, state: Option<string>)

  // ---------------------------------------------------------------- outcomes of an operation

  /** The exceptions an operation of the session can raise. */
  datatype Fault =
    | Transport                 // HttpRequestException from the transport
    | HttpStatus(status: int)   // EnsureSuccessStatusCode on a non-2xx response
    | TimeOutOfRange            // DateTime.AddSeconds outside the range of DateTime
    | NoUser                    // the users endpoint returned an empty `data` array
    | BrowserLaunch             // Process.Start could not open the authorize URL
    | ListenerBind              // HttpListener.Start could not bind the callback prefix
    | PageWrite                 // writing the confirmation page to the browser failed
    | CsrfMismatch              // the callback's `state` is not the nonce of this flow

  /** An operation returns a value, throws, or never returns (it waits for a callback that never comes). */
  datatype Outcome<T> = Done(value: T) | Threw(fault: Fault) | Blocked {
    /** The same failure, seen from a caller with another result type. */
    function Cast<U>(): (r: Outcome<U>)
      requires !Done?
      ensures r.Threw? == Threw? && (Threw? ==> r.fault == fault)
    {
      if Threw? then Threw(fault) else Blocked
    }
  }

  // ---------------------------------------------------------------- the session and its events

  /** The session's public state: the properties of `TwitchAuth`. */
  datatype Session = Session(
    accessToken: Option<string>,
    refreshToken: Option<string>,
    expiresAt: Instant,
    userId: Option<string>,
    userLogin: Option<string>,
    displayName: Option<string>)

  /** A fresh `TwitchAuth`: no tokens, no identity, `ExpiresAt = DateTime.MinValue`. */
  const InitialSession: Session := Session(None, None, 0, None, None, None)

  /** What a session does that the outside world can see, in order. */
  datatype Event =
    | RefreshStarted                            // RefreshAccessTokenAsync is entered
    | FlowStarted                               // RunAuthFlowAsync is entered
    | BrowserOpened(url: string)                // Process.Start on the authorize URL
    | ListenerStarted                           // the callback listener is bound
    | CallbackReceived(callback: Callback)      // the listener accepts a request
    | ListenerStopped                           // the listener stops listening
    | TokenPosted(form: seq<(string, string)>)  // a POST to the token endpoint
    | IdentityRequested(bearer: string)         // a GET of the users endpoint with this bearer token
    | ValidationRequested(oauthToken: string)   // a GET of the validate endpoint with this token
    | Notified(newToken: Option<string>)        // the registered bot is handed a new access token

  /** The identity fields of `s` and `t` agree. */
  predicate SameIdentity(s: Session, t: Session) {
    s.userId == t.userId && s.userLogin == t.userLogin && s.displayName == t.displayName
  }

  /** The token fields of `s` and `t` agree. */
  predicate SameTokens(s: Session, t: Session) {
    s.accessToken == t.accessToken && s.refreshToken == t.refreshToken && s.expiresAt == t.expiresAt
  }

  /** The token an event hands to the notifier, if it is a notification. */
  function Told(e: Event): seq<Option<string>> {
    if e.Notified? then [e.newToken] else []
  }

  /** The tokens handed to the notifier, in order. */
  function Notifications(ev: seq<Event>): (r: seq<Option<string>>)
    ensures |r| <= |ev|
  {
    if ev == [] then [] else Told(ev[0]) + Notifications(ev[1..])
  }

  lemma {:induction false} NotificationsAppend(a: seq<Event>, b: seq<Event>)
    ensures Notifications(a + b) == Notifications(a) + Notifications(b)
  {
    if a == [] {
      assert a + b == b;
    } else {
      var ab := a + b;
      assert ab[0] == a[0] && ab[1..] == a[1..] + b;
      NotificationsAppend(a[1..], b);
      calc {
        Notifications(ab);
        Told(a[0]) + Notifications(a[1..] + b);
        Told(a[0]) + (Notifications(a[1..]) + Notifications(b));
        (Told(a[0]) + Notifications(a[1..])) + Notifications(b);
      }
    }
  }

  /** No identity lookup was made and nobody was notified. */
  predicate NoIdentityNoNotify(ev: seq<Event>) {
    forall i | 0 <= i < |ev| :: !ev[i].IdentityRequested? && !ev[i].Notified?
  }

  /** No request reached the provider and nobody was notified. */
  predicate ProviderUntouched(ev: seq<Event>) {
    NoIdentityNoNotify(ev) && forall i | 0 <= i < |ev| :: !ev[i].TokenPosted?
  }

  lemma {:induction false} UntouchedMeansSilent(ev: seq<Event>)
    requires ProviderUntouched(ev)
    ensures Notifications(ev) == []
  {
    if ev != [] {
      assert ProviderUntouched(ev[1..]) by {
        forall i | 0 <= i < |ev[1..]| ensures !ev[1..][i].Notified? {
          assert ev[1..][i] == ev[i + 1];
        }
      }
      UntouchedMeansSilent(ev[1..]);
    }
  }

  /** Every notification comes right after an identity request made with the token it hands over, i.e.
      the identity fields were refreshed with the new token before anybody was told about it. */
  predicate IdentityBeforeNotify(ev: seq<Event>) {
    forall i | 0 <= i < |ev| && ev[i].Notified? :: i > 0 && ev[i - 1] == IdentityRequested(ev[i].newToken.GetOr(""))
  }
}
