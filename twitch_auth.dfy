/** The session object of TwitchAuth.cs: its properties are fields that its methods update in place, and
    every method is proved to leave exactly the state, emit exactly the events and end exactly as the
    function of the same name in AuthSpec says. The replies of the network, the browser, the listener
    and the clock are parameters; the events are kept in a ghost trace. */
module TwitchAuthModel {
  import opened AuthTypes
  import opened AuthSpec

  /** `CancellationTokenSource`: a flag that `Cancel` sets for good. */
  class CancellationSource {
    var cancelled: bool

    constructor ()
      ensures !cancelled
    {
      cancelled := false;
    }

    method Cancel()
      modifies this
      ensures cancelled
    {
      cancelled := true;
    }
  }

  class TwitchAuth {
    const clientId: string
    const clientSecret: string
    /** `BotReference != null`: whether a bot receives `ApplyNewToken` calls. Its owner sets it. */
    var BotRegistered: bool

    var AccessToken: Option<string>
    var RefreshToken: Option<string>
    var ExpiresAt: Instant
    var UserId: Option<string>
    var UserLogin: Option<string>
    var DisplayName: Option<string>

    /** `_cts`: the cancellation source of the most recently started watcher. */
    var cts: CancellationSource?

    /** Everything this session has done that the outside world can see, in order. */
    ghost var trace: seq<Event>

    /** The public state, as a value. */
    function State(): Session
      reads this
    {
      Session(AccessToken, RefreshToken, ExpiresAt, UserId, UserLogin, DisplayName)
    }

    function Ctx(): Context
      reads this
    {
      Context(clientId, clientSecret, BotRegistered)
    }

    /** `new TwitchAuth(clientId, clientSecret)` (TwitchAuth.cs:23-29). */
    constructor (clientId: string, clientSecret: string)
      ensures this.clientId == clientId && this.clientSecret == clientSecret
      ensures State() == InitialSession && trace == [] && cts == null && !BotRegistered
    {
      this.clientId := clientId;
      this.clientSecret := clientSecret;
      BotRegistered := false;
      AccessToken, RefreshToken, ExpiresAt := None, None, 0;
      UserId, UserLogin, DisplayName := None, None, None;
      cts := null;
      trace := [];
    }

    method SetTokenInfo(body: TokenResponse, now: Instant) returns (r: Outcome<()>)
      modifies this
      ensures var st := AuthSpec.SetTokenInfo(old(State()), body, now, old(trace));
              State() == st.session && trace == st.trace && r == st.outcome
      ensures cts == old(cts) && BotRegistered == old(BotRegistered)
    {
      AccessToken := body.accessToken;
      RefreshToken := body.refreshToken;
      var expiry := ExpiryFor(now, body.expiresIn);
      if expiry.None? {
        return Threw(TimeOutOfRange);
      }
      ExpiresAt := expiry.value;
      r := Done(());
    }

    method FetchUserInfo(reply: Reply<seq<Identity>>) returns (r: Outcome<()>)
      modifies this
      ensures var st := AuthSpec.FetchUserInfo(old(State()), reply, old(trace));
              State() == st.session && trace == st.trace && r == st.outcome
      ensures cts == old(cts) && BotRegistered == old(BotRegistered)
    {
      trace := trace + [IdentityRequested(AccessToken.GetOr(""))];
      if reply.TransportError? {
        return Threw(Transport);
      }
      if !IsSuccessStatus(reply.status) {
        return Threw(HttpStatus(reply.status));
      }
      if |reply.body| == 0 {
        return Threw(NoUser);
      }
      var user := reply.body[0];
      UserId := user.id;
      UserLogin := user.login;
      DisplayName := user.displayName;
      r := Done(());
    }

    method ExchangeCodeForToken(code: Option<string>, g: GrantInput) returns (r: Outcome<()>)
      modifies this
      ensures var st := AuthSpec.Exchange(old(State()), old(Ctx()), code, g, old(trace));
              State() == st.session && trace == st.trace && r == st.outcome
      ensures cts == old(cts) && BotRegistered == old(BotRegistered)
    {
      trace := trace + [TokenPosted(CodeForm(Ctx(), code))];
      if g.reply.TransportError? {
        return Threw(Transport);
      }
      if !IsSuccessStatus(g.reply.status) {
        return Threw(HttpStatus(g.reply.status));
      }
      r := SetTokenInfo(g.reply.body, g.issuedAt);
      if !r.Done? {
        return;
      }
      r := FetchUserInfo(g.identity);
      if !r.Done? {
        return;
      }
      if BotRegistered {
        trace := trace + [Notified(AccessToken)];
      }
    }

    method RunAuthFlow(f: FlowInput) returns (r: Outcome<()>)
      modifies this
      ensures var st := AuthSpec.RunAuthFlow(old(State()), old(Ctx()), f, old(trace));
              State() == st.session && trace == st.trace && r == st.outcome
      ensures cts == old(cts) && BotRegistered == old(BotRegistered)
    {
      trace := trace + [FlowStarted];
      var state := f.nonce;
      var authUrl := AuthorizeUrl(clientId, state);
      trace := trace + [BrowserOpened(authUrl)];
      if !f.browserOpens {
        return Threw(BrowserLaunch);
      }
      if !f.listenerBinds {
        return Threw(ListenerBind);
      }
      trace := trace + [ListenerStarted];
      if f.callback.None? {
        return Blocked;
      }
      var callback := f.callback.value;
      trace := trace + [CallbackReceived(callback)];
      // Success or not, the listener stops: by `listener.Stop()`, or by its disposal when writing the
      // confirmation page throws.
      trace := trace + [ListenerStopped];
      if !f.pageWritten {
        return Threw(PageWrite);
      }
      if callback.state != Some(state) {
        return Threw(CsrfMismatch);
      }
      r := ExchangeCodeForToken(callback.code, f.exchange);
      if !r.Done? {
        return;
      }
      r := FetchUserInfo(f.identity);
    }

    method Validate(reply: Reply<()>) returns (r: Outcome<bool>)
      modifies this
      ensures var st := AuthSpec.Validate(old(State()), reply, old(trace));
              State() == st.session && trace == st.trace && r == st.outcome
      ensures cts == old(cts) && BotRegistered == old(BotRegistered)
    {
      if IsNullOrEmpty(AccessToken) {
        return Done(false);
      }
      trace := trace + [ValidationRequested(AccessToken.value)];
      if reply.TransportError? {
        return Threw(Transport);
      }
      r := Done(IsSuccessStatus(reply.status));
    }

    method RefreshAccessToken(g: GrantInput) returns (r: Outcome<bool>)
      modifies this
      ensures var st := AuthSpec.Refresh(old(State()), old(Ctx()), g, old(trace));
              State() == st.session && trace == st.trace && r == st.outcome
      ensures cts == old(cts) && BotRegistered == old(BotRegistered)
    {
      trace := trace + [RefreshStarted];
      if IsNullOrEmpty(RefreshToken) {
        return Done(false);
      }
      trace := trace + [TokenPosted(RefreshForm(Ctx(), RefreshToken.value))];
      if g.reply.TransportError? {
        return Threw(Transport);
      }
      if !IsSuccessStatus(g.reply.status) {
        return Done(false);
      }
      var stored := SetTokenInfo(g.reply.body, g.issuedAt);
      if !stored.Done? {
        return stored.Cast();
      }
      var fetched := FetchUserInfo(g.identity);
      if !fetched.Done? {
        return fetched.Cast();
      }
      if BotRegistered {
        trace := trace + [Notified(AccessToken)];
      }
      r := Done(true);
    }

    /** The recovery `EnsureValidAsync` and the watcher share (TwitchAuth.cs:164-168 and 191-196): refresh,
        and run the full flow when the refresh returns false. */
    method Renew(g: GrantInput, f: FlowInput) returns (r: Outcome<()>)
      modifies this
      ensures var st := AuthSpec.Renew(old(State()), old(Ctx()), g, f, old(trace));
              State() == st.session && trace == st.trace && r == st.outcome
      ensures cts == old(cts) && BotRegistered == old(BotRegistered)
    {
      var refreshed := RefreshAccessToken(g);
      if !refreshed.Done? {
        return refreshed.Cast();
      }
      if refreshed.value {
        return Done(());
      }
      r := RunAuthFlow(f);
    }

    method EnsureValid(e: EnsureInput) returns (r: Outcome<()>)
      modifies this
      ensures var st := AuthSpec.EnsureValid(old(State()), old(Ctx()), e, old(trace));
              State() == st.session && trace == st.trace && r == st.outcome
      ensures cts == old(cts) && BotRegistered == old(BotRegistered)
    {
      if IsNullOrEmpty(AccessToken) {
        r := RunAuthFlow(e.flow);
        return;
      }
      var valid := false;
      if e.now < ExpiresAt {
        var validated := Validate(e.validate);
        if !validated.Done? {
          return validated.Cast();
        }
        valid := validated.value;
      }
      if !valid {
        r := Renew(e.refresh, e.flow);
        if !r.Done? {
          return;
        }
      }
      r := FetchUserInfo(e.identity);
    }

    /** One iteration of the watcher loop. The outcome is the sleep that ends it, or `Blocked` when the
        iteration waits forever in a flow. */
    method Tick(t: TickInput) returns (r: Outcome<int>)
      modifies this
      ensures var st := AuthSpec.Tick(old(State()), old(Ctx()), t, old(trace));
              State() == st.session && trace == st.trace && r == st.outcome
      ensures cts == old(cts) && BotRegistered == old(BotRegistered)
    {
      var now := t.now;
      if IsNullOrEmpty(AccessToken) || ExpiresAt - now <= 0 {
        var renewed := Renew(t.refresh, t.flow);
        if renewed.Blocked? {
          return Blocked;
        }
        // An exception ends the `try` block here and is swallowed by its `catch`.
        if renewed.Done? {
          var _ := FetchUserInfo(t.identity);
        }
      }
      r := Done(NextDelay(ExpiresAt, t.wakeClock));
    }

    /** `StartTokenWatcherAsync` run over a finite sequence of iterations; a stop request in an iteration
        stands for `StopTokenWatcher` being called while that iteration sleeps. */
    method StartTokenWatcher(ticks: seq<TickInput>) returns (status: WatcherStatus, delays: seq<int>)
      modifies this
      ensures var w := Watch(old(State()), old(Ctx()), ticks, old(trace));
              State() == w.session && trace == w.trace && delays == w.delays && status == w.status
      ensures BotRegistered == old(BotRegistered)
      ensures status == Cancelled ==> cts == null
      ensures status != Cancelled ==> cts != null && fresh(cts) && !cts.cancelled
    {
      var source := new CancellationSource();
      cts := source;
      ghost var s0, ctx0, t0 := State(), Ctx(), trace;
      var i := 0;
      delays := [];
      while !source.cancelled && i < |ticks|
        invariant 0 <= i <= |ticks|
        invariant Ctx() == ctx0
        invariant cts == (if source.cancelled then null else source)
        invariant var w := Watch(s0, ctx0, ticks[..i], t0);
                  && State() == w.session && trace == w.trace && delays == w.delays
                  && w.status == (if source.cancelled then Cancelled else Running)
      {
        assert ticks[..i + 1][..i] == ticks[..i];
        var slept := Tick(ticks[i]);
        if slept.Blocked? {
          assert Watch(s0, ctx0, ticks[..i + 1], t0).status == Stuck;
          WatchSettles(s0, ctx0, ticks, t0, i + 1);
          status := Stuck;
          return;
        }
        delays := delays + [slept.value];
        if ticks[i].stopRequested {
          StopTokenWatcher();
        }
        i := i + 1;
      }
      if i < |ticks| {
        WatchSettles(s0, ctx0, ticks, t0, i);
      } else {
        assert ticks[..i] == ticks;
      }
      status := if source.cancelled then Cancelled else Running;
    }

    /** `StopTokenWatcher` (TwitchAuth.cs:217-221): cancel the current watcher, if any, and forget it. */
    method StopTokenWatcher()
      modifies this, cts
      ensures old(cts) != null ==> old(cts).cancelled
      ensures cts == null
      ensures State() == old(State()) && trace == old(trace) && BotRegistered == old(BotRegistered)
    {
      if cts != null {
        cts.Cancel();
      }
      cts := null;
    }
  }

  /** Once the watcher is no longer running, later iterations change nothing. */
  lemma {:induction false} WatchSettles(s: Session, ctx: Context, ticks: seq<TickInput>, tr: seq<Event>, k: nat)
    requires k <= |ticks| && Watch(s, ctx, ticks[..k], tr).status != Running
    ensures Watch(s, ctx, ticks, tr) == Watch(s, ctx, ticks[..k], tr)
    decreases |ticks| - k
  {
    if k < |ticks| {
      assert ticks[..k + 1][..k] == ticks[..k];
      WatchSettles(s, ctx, ticks, tr, k + 1);
    } else {
      assert ticks[..k] == ticks;
    }
  }
}
