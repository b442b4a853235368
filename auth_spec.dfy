/** The behaviour of every operation of `TwitchAuth` (TwitchAuth.cs) as a function of the session before
    the call and of what the provider, the browser, the listener and the clock answer during it. Each
    function returns the session after the call, the events the call emitted, and how it ended: returned
    a value, threw, or never returned. The class in twitch_auth.dfy is proved to behave exactly so. */
module AuthSpec {
  import opened AuthTypes

  const AuthorizeEndpoint: string := "https://id.twitch.tv/oauth2/authorize"
  const RedirectUri: string := "http://localhost:5000/callback"
  /** `Uri.EscapeDataString(RedirectUri)`. */
  const EscapedRedirectUri: string := "http%3A%2F%2Flocalhost%3A5000%2Fcallback"
  const Scopes: string := "chat:read+chat:edit+user:read:email"

  /** What a session knows besides its public state: the application's credentials and whether a bot is
      registered as the target of token notifications (`BotReference != null`). */
  datatype Context = Context(clientId: string, clientSecret: string, notify: bool)

  /** The authorization request of section 4.1.1 of RFC 6749, with the nonce as its `state` parameter. */
  function AuthorizeUrl(clientId: string, state: string): (url: string)
    ensures |url| > |AuthorizeEndpoint| && url[..|AuthorizeEndpoint|] == AuthorizeEndpoint
    ensures |url| >= |state| + 7 && url[|url| - |state| - 7..] == "&state=" + state
  {
    var head := AuthorizeEndpoint + "?client_id=" + clientId + "&redirect_uri=" + EscapedRedirectUri
                + "&response_type=code" + "&scope=" + Scopes;
    assert (head + "&state=" + state)[..|AuthorizeEndpoint|] == AuthorizeEndpoint;
    head + "&state=" + state
  }

  /** The form of the access-token request of section 4.1.3 of RFC 6749. A missing code is sent empty,
      which is what `FormUrlEncodedContent` does with a null value. */
  function CodeForm(ctx: Context, code: Option<string>): (form: seq<(string, string)>)
    ensures ("grant_type", "authorization_code") in form && ("code", code.GetOr("")) in form
    ensures ("redirect_uri", RedirectUri) in form
  {
    [("client_id", ctx.clientId), ("client_secret", ctx.clientSecret), ("code", code.GetOr("")),
     ("grant_type", "authorization_code"), ("redirect_uri", RedirectUri)]
  }

  /** The form of the refresh request of section 6 of RFC 6749. */
  function RefreshForm(ctx: Context, refreshToken: string): (form: seq<(string, string)>)
    ensures ("grant_type", "refresh_token") in form && ("refresh_token", refreshToken) in form
    ensures forall i | 0 <= i < |form| :: form[i].0 != "code" && form[i].0 != "redirect_uri"
  {
    [("client_id", ctx.clientId), ("client_secret", ctx.clientSecret), ("refresh_token", refreshToken),
     ("grant_type", "refresh_token")]
  }

  /** The session after a call, the session's trace after it (the trace before it, extended by what the
      call emitted), and how the call ended. */
  datatype Step<T> = Step(session: Session, trace: seq<Event>, outcome: Outcome<T>)

  /** What the world answers to a token request: the token endpoint's reply, the clock when the reply is
      read, and the users endpoint's reply to the identity lookup that follows. */
  datatype GrantInput = GrantInput(reply: Reply<TokenResponse>, issuedAt: Instant, identity: Reply<seq<Identity>>)

  /** What the world answers during one authorization flow. */
  datatype FlowInput = FlowInput(
    nonce: string,                  // Guid.NewGuid().ToString("N")
    browserOpens: bool,             // Process.Start returns
    listenerBinds: bool,            // HttpListener.Start returns
    callback: Option<Callback>,     // the first request to the listener; None: no request ever arrives
    pageWritten: bool,              // the confirmation page reaches the browser
    exchange: GrantInput,           // the code exchange and its identity lookup
    identity: Reply<seq<Identity>>) // the second identity lookup, at the end of the flow

  /** What the world answers during `EnsureValidAsync`. */
  datatype EnsureInput = EnsureInput(
    now: Instant, validate: Reply<()>, refresh: GrantInput, flow: FlowInput, identity: Reply<seq<Identity>>)

  /** What the world answers during one iteration of the token watcher, and whether `StopTokenWatcher` is
      called while the watcher sleeps after it. */
  datatype TickInput = TickInput(
    now: Instant, refresh: GrantInput, flow: FlowInput, identity: Reply<seq<Identity>>, wakeClock: Instant,
    stopRequested: bool)

  // ---------------------------------------------------------------- the token fields

  /** `SetTokenInfo` (TwitchAuth.cs:31-37): both tokens are stored, then the expiry ten minutes early;
      when that expiry is outside the range of `DateTime` the tokens are already stored and the exception
      leaves the old expiry. */
  function SetTokenInfo(s: Session, body: TokenResponse, now: Instant, tr: seq<Event>): Step<()> {
    var stored := s.(accessToken := body.accessToken, refreshToken := body.refreshToken);
    match ExpiryFor(now, body.expiresIn)
    case Some(t) => Step(stored.(expiresAt := t), tr, Done(()))
    case None => Step(stored, tr, Threw(TimeOutOfRange))
  }

  // ---------------------------------------------------------------- the identity fields

  /** `FetchUserInfoAsync` (TwitchAuth.cs:97-111): one request with the current access token as bearer
      (a null token is sent as empty); on a 2xx reply with at least one user, the identity fields take the
      first user's values. A failed transport, a non-2xx status or an empty list throw. */
  function FetchUserInfo(s: Session, reply: Reply<seq<Identity>>, tr: seq<Event>): Step<()> {
    var asked := tr + [IdentityRequested(s.accessToken.GetOr(""))];
    match reply
    case TransportError => Step(s, asked, Threw(Transport))
    case Response(status, users) =>
      if !IsSuccessStatus(status) then Step(s, asked, Threw(HttpStatus(status)))
      else if |users| == 0 then Step(s, asked, Threw(NoUser))
      else Step(s.(userId := users[0].id, userLogin := users[0].login, displayName := users[0].displayName),
                asked, Done(()))
  }

  /** `BotReference?.ApplyNewToken(AccessToken!)`. */
  function Notify(s: Session, ctx: Context, tr: seq<Event>): seq<Event> {
    if ctx.notify then tr + [Notified(s.accessToken)] else tr
  }

  // ---------------------------------------------------------------- token acquisition

  /** `ExchangeCodeForTokenAsync` (TwitchAuth.cs:77-95): post the code; on a 2xx reply store the tokens,
      fetch identity, then notify. Each failing step throws and keeps what was stored so far. */
  function Exchange(s: Session, ctx: Context, code: Option<string>, g: GrantInput, tr: seq<Event>): Step<()> {
    var posted := tr + [TokenPosted(CodeForm(ctx, code))];
    match g.reply
    case TransportError => Step(s, posted, Threw(Transport))
    case Response(status, body) =>
      if !IsSuccessStatus(status) then Step(s, posted, Threw(HttpStatus(status)))
      else
        var stored := SetTokenInfo(s, body, g.issuedAt, posted);
        if !stored.outcome.Done? then stored
        else
          var fetched := FetchUserInfo(stored.session, g.identity, stored.trace);
          if !fetched.outcome.Done? then fetched
          else Step(fetched.session, Notify(fetched.session, ctx, fetched.trace), Done(()))
  }

  /** `RunAuthFlowAsync` (TwitchAuth.cs:39-75): open the browser on the authorize URL, bind the listener,
      wait (without any timeout) for one request, answer it, stop listening, reject a `state` that is not
      the nonce, then exchange the code and fetch identity once more. */
  function RunAuthFlow(s: Session, ctx: Context, f: FlowInput, tr: seq<Event>): Step<()> {
    var started := tr + [FlowStarted];
    var launched := started + [BrowserOpened(AuthorizeUrl(ctx.clientId, f.nonce))];
    if !f.browserOpens then Step(s, launched, Threw(BrowserLaunch))
    else if !f.listenerBinds then Step(s, launched, Threw(ListenerBind))
    else
      var listening := launched + [ListenerStarted];
      match f.callback
      case None => Step(s, listening, Blocked)
      case Some(cb) =>
        var stopped := listening + [CallbackReceived(cb)] + [ListenerStopped];
        if !f.pageWritten then Step(s, stopped, Threw(PageWrite))
        else if cb.state != Some(f.nonce) then Step(s, stopped, Threw(CsrfMismatch))
        else
          var exchanged := Exchange(s, ctx, cb.code, f.exchange, stopped);
          if !exchanged.outcome.Done? then exchanged
          else FetchUserInfo(exchanged.session, f.identity, exchanged.trace)
  }

  // ---------------------------------------------------------------- validation and refresh

  /** `ValidateAsync` (TwitchAuth.cs:113-123): false without any request when there is no access token;
      otherwise whether the validate endpoint answers 2xx. A failed transport throws. */
  function Validate(s: Session, reply: Reply<()>, tr: seq<Event>): Step<bool> {
    if IsNullOrEmpty(s.accessToken) then Step(s, tr, Done(false))
    else
      var asked := tr + [ValidationRequested(s.accessToken.value)];
      match reply
      case TransportError => Step(s, asked, Threw(Transport))
      case Response(status, _) => Step(s, asked, Done(IsSuccessStatus(status)))
  }

  /** `RefreshAccessTokenAsync` (TwitchAuth.cs:125-151): false without any request when there is no refresh
      token, false when the provider rejects the refresh; on acceptance store the tokens, fetch identity,
      notify and return true. */
  function Refresh(s: Session, ctx: Context, g: GrantInput, tr: seq<Event>): Step<bool> {
    var entered := tr + [RefreshStarted];
    if IsNullOrEmpty(s.refreshToken) then Step(s, entered, Done(false))
    else
      var posted := entered + [TokenPosted(RefreshForm(ctx, s.refreshToken.value))];
      match g.reply
      case TransportError => Step(s, posted, Threw(Transport))
      case Response(status, body) =>
        if !IsSuccessStatus(status) then Step(s, posted, Done(false))
        else
          var stored := SetTokenInfo(s, body, g.issuedAt, posted);
          if !stored.outcome.Done? then Step(stored.session, stored.trace, stored.outcome.Cast())
          else
            var fetched := FetchUserInfo(stored.session, g.identity, stored.trace);
            if !fetched.outcome.Done? then Step(fetched.session, fetched.trace, fetched.outcome.Cast())
            else Step(fetched.session, Notify(fetched.session, ctx, fetched.trace), Done(true))
  }

  /** The recovery shared by `EnsureValidAsync` and the watcher (TwitchAuth.cs:164-168 and 191-196):
      refresh, and the full flow when the refresh returns false. */
  function Renew(s: Session, ctx: Context, g: GrantInput, f: FlowInput, tr: seq<Event>): Step<()> {
    var refreshed := Refresh(s, ctx, g, tr);
    if refreshed.outcome == Done(true) then Step(refreshed.session, refreshed.trace, Done(()))
    else if refreshed.outcome == Done(false) then RunAuthFlow(refreshed.session, ctx, f, refreshed.trace)
    else Step(refreshed.session, refreshed.trace, refreshed.outcome.Cast())
  }

  /** The test of TwitchAuth.cs:161: an expired token is stale without asking the provider; otherwise it
      is stale when it does not validate. */
  function StillValid(s: Session, e: EnsureInput, tr: seq<Event>): Step<bool> {
    if e.now >= s.expiresAt then Step(s, tr, Done(false)) else Validate(s, e.validate, tr)
  }

  /** `EnsureValidAsync` (TwitchAuth.cs:153-172). Without an access token: the full flow and nothing else.
      Otherwise, when the token is stale: the recovery; in every case identity is fetched at the end. */
  function EnsureValid(s: Session, ctx: Context, e: EnsureInput, tr: seq<Event>): Step<()> {
    if IsNullOrEmpty(s.accessToken) then RunAuthFlow(s, ctx, e.flow, tr)
    else
      var check := StillValid(s, e, tr);
      if !check.outcome.Done? then Step(check.session, check.trace, check.outcome.Cast())
      else
        var renewed := if check.outcome.value then Step(s, check.trace, Done(()))
                       else Renew(s, ctx, e.refresh, e.flow, check.trace);
        if !renewed.outcome.Done? then renewed
        else FetchUserInfo(renewed.session, e.identity, renewed.trace)
  }

  // ---------------------------------------------------------------- the token watcher

  /** The watcher refreshes when there is no access token or the recorded expiry has come. */
  predicate RefreshDue(s: Session, now: Instant) {
    IsNullOrEmpty(s.accessToken) || s.expiresAt - now <= 0
  }

  /** The `try` block of one watcher iteration (TwitchAuth.cs:181-204): the recovery, then identity. An
      exception ends the block and is swallowed; the block never returns only when the flow waits for a
      callback that never comes. */
  function TickWork(s: Session, ctx: Context, t: TickInput, tr: seq<Event>): Step<()> {
    var renewed := Renew(s, ctx, t.refresh, t.flow, tr);
    if renewed.outcome.Blocked? then renewed
    else if renewed.outcome.Threw? then Step(renewed.session, renewed.trace, Done(()))
    else
      var fetched := FetchUserInfo(renewed.session, t.identity, renewed.trace);
      Step(fetched.session, fetched.trace, Done(()))
  }

  /** One iteration of the watcher loop (TwitchAuth.cs:181-212): the work when a refresh is due, then the
      sleep computed from the expiry as it now stands, unless the work never returns. */
  function Tick(s: Session, ctx: Context, t: TickInput, tr: seq<Event>): Step<int> {
    var work := if RefreshDue(s, t.now) then TickWork(s, ctx, t, tr) else Step(s, tr, Done(()));
    if work.outcome.Blocked? then Step(work.session, work.trace, Blocked)
    else Step(work.session, work.trace, Done(NextDelay(work.session.expiresAt, t.wakeClock)))
  }

  /** How a run of the watcher stands: still running, stopped by cancellation, or stuck in a flow that
      waits for a callback. */
  datatype WatcherStatus = Running | Cancelled | Stuck

  datatype WatchRun = WatchRun(session: Session, trace: seq<Event>, delays: seq<int>, status: WatcherStatus)

  /** The watcher loop (TwitchAuth.cs:175-215) over a sequence of iterations: an iteration runs only while
      the watcher is neither cancelled nor stuck; a stop request during an iteration's sleep cancels it. */
  function Watch(s: Session, ctx: Context, ticks: seq<TickInput>, tr: seq<Event>): WatchRun
    decreases |ticks|
  {
    if ticks == [] then WatchRun(s, tr, [], Running)
    else
      var before := Watch(s, ctx, ticks[..|ticks| - 1], tr);
      var last := ticks[|ticks| - 1];
      if before.status != Running then before
      else
        var step := Tick(before.session, ctx, last, before.trace);
        if step.outcome.Blocked? then WatchRun(step.session, step.trace, before.delays, Stuck)
        else WatchRun(step.session, step.trace, before.delays + [step.outcome.value],
                      if last.stopRequested then Cancelled else Running)
  }
}
