/** What the session guarantees, proved about the functions of AuthSpec (and so, through the contracts of
    the class in twitch_auth.dfy, about `TwitchAuth` itself): the expiry arithmetic, the CSRF check, which
    branch runs when, one notification per acquired token, and the watcher's sleep and termination. */
module AuthProperties {
  import opened AuthTypes
  import opened AuthSpec

  // ---------------------------------------------------------------- counting events

  /** The entry markers: a refresh was attempted, a full flow was started. */
  predicate Marker(m: Event) {
    m == RefreshStarted || m == FlowStarted
  }

  /** How often `m` occurs in `ev`. */
  function Count(ev: seq<Event>, m: Event): (n: nat)
    ensures n <= |ev|
  {
    if ev == [] then 0 else (if ev[0] == m then 1 else 0) + Count(ev[1..], m)
  }

  lemma {:induction false} CountAppend(a: seq<Event>, b: seq<Event>, m: Event)
    ensures Count(a + b, m) == Count(a, m) + Count(b, m)
  {
    if a == [] {
      assert a + b == b;
    } else {
      assert (a + b)[0] == a[0] && (a + b)[1..] == a[1..] + b;
      CountAppend(a[1..], b, m);
    }
  }

  lemma CountSnoc(a: seq<Event>, e: Event, m: Event)
    ensures Count(a + [e], m) == Count(a, m) + (if e == m then 1 else 0)
  {
    CountAppend(a, [e], m);
    assert [e][1..] == [];
  }

  lemma NotificationsSnoc(a: seq<Event>, e: Event)
    ensures Notifications(a + [e]) == Notifications(a) + Told(e)
  {
    NotificationsAppend(a, [e]);
    assert [e][1..] == [];
  }

  /** Appending an event keeps every notification right after the identity request for its token. */
  lemma IdentityBeforeNotifySnoc(a: seq<Event>, e: Event)
    requires IdentityBeforeNotify(a)
    requires e.Notified? ==> |a| > 0 && a[|a| - 1] == IdentityRequested(e.newToken.GetOr(""))
    ensures IdentityBeforeNotify(a + [e])
  {
    forall i | 0 <= i < |a + [e]| && (a + [e])[i].Notified?
      ensures i > 0 && (a + [e])[i - 1] == IdentityRequested((a + [e])[i].newToken.GetOr(""))
    {
      if i < |a| {
        assert (a + [e])[i] == a[i];
        assert i > 0 && (a + [e])[i - 1] == a[i - 1];
      }
    }
  }

  // ---------------------------------------------------------------- SetTokenInfo and FetchUserInfo

  /** `SetTokenInfo` stores both tokens as the provider sent them and the expiry `expires_in - 600`
      seconds after the clock, and leaves the identity alone; it throws only when that expiry is not a
      `DateTime`, keeping the old expiry. */
  lemma SetTokenInfoStores(s: Session, body: TokenResponse, now: Instant, tr: seq<Event>)
    ensures var r := SetTokenInfo(s, body, now, tr);
            && r.trace == tr
            && r.session.accessToken == body.accessToken && r.session.refreshToken == body.refreshToken
            && SameIdentity(r.session, s)
            && (r.outcome.Done? || r.outcome == Threw(TimeOutOfRange))
            && (r.outcome.Done? ==> Some(r.session.expiresAt) == ExpiryFor(now, body.expiresIn))
            && (r.outcome.Threw? ==> r.session.expiresAt == s.expiresAt && ExpiryFor(now, body.expiresIn).None?)
            && (Int32Min + EarlyRefreshSeconds <= body.expiresIn as int && r.outcome.Done? ==>
                  r.session.expiresAt == now + (body.expiresIn as int - EarlyRefreshSeconds) * SecondMs)
  {
  }

  /** `FetchUserInfoAsync` makes exactly one request, with the current access token; it touches only the
      identity fields, and only on a 2xx reply listing a user, whose values they then take. */
  lemma FetchUserInfoUpdates(s: Session, reply: Reply<seq<Identity>>, tr: seq<Event>)
    ensures var r := FetchUserInfo(s, reply, tr);
            var ok := reply.Response? && IsSuccessStatus(reply.status) && |reply.body| > 0;
            && r.trace == tr + [IdentityRequested(s.accessToken.GetOr(""))]
            && SameTokens(r.session, s)
            && (r.outcome.Done? <==> ok)
            && !r.outcome.Blocked?
            && (ok ==> r.session.userId == reply.body[0].id && r.session.userLogin == reply.body[0].login
                       && r.session.displayName == reply.body[0].displayName)
            && (!ok ==> r.session == s)
  {
  }

  lemma FetchUserInfoNotifications(s: Session, reply: Reply<seq<Identity>>, tr: seq<Event>)
    ensures Notifications(FetchUserInfo(s, reply, tr).trace) == Notifications(tr)
  {
    NotificationsSnoc(tr, IdentityRequested(s.accessToken.GetOr("")));
  }

  lemma FetchUserInfoOrder(s: Session, reply: Reply<seq<Identity>>, tr: seq<Event>)
    requires IdentityBeforeNotify(tr)
    ensures IdentityBeforeNotify(FetchUserInfo(s, reply, tr).trace)
  {
    IdentityBeforeNotifySnoc(tr, IdentityRequested(s.accessToken.GetOr("")));
  }

  lemma FetchUserInfoCounts(s: Session, reply: Reply<seq<Identity>>, tr: seq<Event>, m: Event)
    requires Marker(m)
    ensures Count(FetchUserInfo(s, reply, tr).trace, m) == Count(tr, m)
  {
    CountSnoc(tr, IdentityRequested(s.accessToken.GetOr("")), m);
  }

  // ---------------------------------------------------------------- the code exchange

  /** Every reply the code exchange needs, in the order it needs them, is a success. */
  predicate ExchangeSucceeds(g: GrantInput) {
    && g.reply.Response? && IsSuccessStatus(g.reply.status)
    && ExpiryFor(g.issuedAt, g.reply.body.expiresIn).Some?
    && UsersListed(g.identity)
  }

  /** The session a successful acquisition from `g` leaves: the tokens and expiry of the reply, the
      identity of the first user. */
  function Acquired(g: GrantInput): Session
    requires ExchangeSucceeds(g)
  {
    Session(g.reply.body.accessToken, g.reply.body.refreshToken, ExpiryFor(g.issuedAt, g.reply.body.expiresIn).value,
            g.identity.body[0].id, g.identity.body[0].login, g.identity.body[0].displayName)
  }

  /** A successful code exchange posts the code, stores the tokens, asks for the identity with the new
      token, and then notifies the registered bot, and nobody else, exactly once with that token. */
  lemma ExchangeSuccess(s: Session, ctx: Context, code: Option<string>, g: GrantInput, tr: seq<Event>)
    ensures var r := Exchange(s, ctx, code, g, tr);
            && (r.outcome.Done? <==> ExchangeSucceeds(g))
            && !r.outcome.Blocked?
            && (ExchangeSucceeds(g) ==>
                  && r.session == Acquired(g)
                  && r.trace == tr + [TokenPosted(CodeForm(ctx, code))] + [IdentityRequested(g.reply.body.accessToken.GetOr(""))]
                                   + (if ctx.notify then [Notified(g.reply.body.accessToken)] else []))
  {
  }

  /** The code exchange notifies once when it succeeds and a bot is registered, and never otherwise. */
  lemma ExchangeNotifications(s: Session, ctx: Context, code: Option<string>, g: GrantInput, tr: seq<Event>)
    ensures var r := Exchange(s, ctx, code, g, tr);
            Notifications(r.trace) == Notifications(tr) + (if ExchangeSucceeds(g) && ctx.notify then [g.reply.body.accessToken] else [])
  {
    var r := Exchange(s, ctx, code, g, tr);
    var posted := tr + [TokenPosted(CodeForm(ctx, code))];
    NotificationsSnoc(tr, TokenPosted(CodeForm(ctx, code)));
    if g.reply.TransportError? || !IsSuccessStatus(g.reply.status) {
      assert r.trace == posted;
    } else {
      var stored := SetTokenInfo(s, g.reply.body, g.issuedAt, posted);
      if !stored.outcome.Done? {
        assert r.trace == posted;
      } else {
        var fetched := FetchUserInfo(stored.session, g.identity, posted);
        FetchUserInfoNotifications(stored.session, g.identity, posted);
        if !fetched.outcome.Done? {
          assert r.trace == fetched.trace;
        } else if ctx.notify {
          NotificationsSnoc(fetched.trace, Notified(fetched.session.accessToken));
          assert r.trace == fetched.trace + [Notified(g.reply.body.accessToken)];
        } else {
          assert r.trace == fetched.trace;
        }
      }
    }
  }

  /** The code exchange keeps every notification right after the identity request for its token. */
  lemma ExchangeOrder(s: Session, ctx: Context, code: Option<string>, g: GrantInput, tr: seq<Event>)
    requires IdentityBeforeNotify(tr)
    ensures IdentityBeforeNotify(Exchange(s, ctx, code, g, tr).trace)
  {
    var posted := tr + [TokenPosted(CodeForm(ctx, code))];
    IdentityBeforeNotifySnoc(tr, TokenPosted(CodeForm(ctx, code)));
    if g.reply.Response? && IsSuccessStatus(g.reply.status) {
      var stored := SetTokenInfo(s, g.reply.body, g.issuedAt, posted);
      if stored.outcome.Done? {
        var fetched := FetchUserInfo(stored.session, g.identity, posted);
        FetchUserInfoOrder(stored.session, g.identity, posted);
        if fetched.outcome.Done? && ctx.notify {
          IdentityBeforeNotifySnoc(fetched.trace, Notified(fetched.session.accessToken));
        }
      }
    }
  }

  /** The code exchange neither attempts a refresh nor starts a flow. */
  lemma ExchangeCounts(s: Session, ctx: Context, code: Option<string>, g: GrantInput, tr: seq<Event>, m: Event)
    requires Marker(m)
    ensures Count(Exchange(s, ctx, code, g, tr).trace, m) == Count(tr, m)
  {
    var r := Exchange(s, ctx, code, g, tr);
    var posted := tr + [TokenPosted(CodeForm(ctx, code))];
    CountSnoc(tr, TokenPosted(CodeForm(ctx, code)), m);
    if g.reply.TransportError? || !IsSuccessStatus(g.reply.status) {
      assert r.trace == posted;
    } else {
      var stored := SetTokenInfo(s, g.reply.body, g.issuedAt, posted);
      if !stored.outcome.Done? {
        assert r.trace == posted;
      } else {
        var fetched := FetchUserInfo(stored.session, g.identity, posted);
        FetchUserInfoCounts(stored.session, g.identity, posted, m);
        if fetched.outcome.Done? && ctx.notify {
          CountSnoc(fetched.trace, Notified(fetched.session.accessToken), m);
          assert r.trace == fetched.trace + [Notified(fetched.session.accessToken)];
        } else {
          assert r.trace == fetched.trace;
        }
      }
    }
  }

  /** The token and identity update is not atomic: when the identity lookup fails after the tokens are
      stored (a failed transport, a non-2xx reply or an empty user list), the exchange throws with the
      new tokens beside the old identity, and nobody is notified. */
  lemma ExchangeNotAtomic(s: Session, ctx: Context, code: Option<string>, g: GrantInput, tr: seq<Event>)
    requires g.reply.Response? && IsSuccessStatus(g.reply.status)
    requires ExpiryFor(g.issuedAt, g.reply.body.expiresIn).Some?
    requires !UsersListed(g.identity)
    ensures var r := Exchange(s, ctx, code, g, tr);
            && r.outcome.Threw?
            && r.session.accessToken == g.reply.body.accessToken && r.session.refreshToken == g.reply.body.refreshToken
            && SameIdentity(r.session, s)
            && Notifications(r.trace) == Notifications(tr)
  {
    ExchangeNotifications(s, ctx, code, g, tr);
  }

  // ---------------------------------------------------------------- refresh

  /** A refresh succeeds when there is a refresh token to send and every reply is a success. */
  predicate RefreshSucceeds(s: Session, g: GrantInput) {
    !IsNullOrEmpty(s.refreshToken) && ExchangeSucceeds(g)
  }

  /** The two ways a refresh returns false: without any request when there is no refresh token, and
      after its one post when the provider rejects it. Neither changes the session. */
  lemma RefreshRejections(s: Session, ctx: Context, g: GrantInput, tr: seq<Event>)
    ensures var r := Refresh(s, ctx, g, tr);
            && (IsNullOrEmpty(s.refreshToken) ==> r == Step(s, tr + [RefreshStarted], Done(false)))
            && (!IsNullOrEmpty(s.refreshToken) && g.reply.Response? && !IsSuccessStatus(g.reply.status) ==>
                  r == Step(s, tr + [RefreshStarted] + [TokenPosted(RefreshForm(ctx, s.refreshToken.value))], Done(false)))
            && (r.outcome == Done(false) <==>
                  IsNullOrEmpty(s.refreshToken) || (g.reply.Response? && !IsSuccessStatus(g.reply.status)))
            && (r.outcome == Done(false) ==> r.session == s)
  {
  }

  /** A successful refresh returns true, replaces tokens and expiry with the reply's, re-fetches the
      identity with the new token, and then notifies once. */
  lemma RefreshSuccess(s: Session, ctx: Context, g: GrantInput, tr: seq<Event>)
    ensures var r := Refresh(s, ctx, g, tr);
            && (r.outcome == Done(true) <==> RefreshSucceeds(s, g))
            && !r.outcome.Blocked?
            && (RefreshSucceeds(s, g) ==>
                  && r.session == Acquired(g)
                  && r.trace == tr + [RefreshStarted] + [TokenPosted(RefreshForm(ctx, s.refreshToken.value))]
                                   + [IdentityRequested(g.reply.body.accessToken.GetOr(""))]
                                   + (if ctx.notify then [Notified(g.reply.body.accessToken)] else []))
  {
  }

  /** A refresh notifies once when it succeeds and a bot is registered, and never otherwise; in
      particular neither way of returning false notifies. */
  lemma RefreshNotifications(s: Session, ctx: Context, g: GrantInput, tr: seq<Event>)
    ensures var r := Refresh(s, ctx, g, tr);
            Notifications(r.trace) == Notifications(tr) + (if RefreshSucceeds(s, g) && ctx.notify then [g.reply.body.accessToken] else [])
  {
    var r := Refresh(s, ctx, g, tr);
    var entered := tr + [RefreshStarted];
    NotificationsSnoc(tr, RefreshStarted);
    if IsNullOrEmpty(s.refreshToken) {
      assert r.trace == entered;
      return;
    }
    var posted := entered + [TokenPosted(RefreshForm(ctx, s.refreshToken.value))];
    NotificationsSnoc(entered, TokenPosted(RefreshForm(ctx, s.refreshToken.value)));
    assert Notifications(posted) == Notifications(tr);
    if g.reply.TransportError? || !IsSuccessStatus(g.reply.status) {
      assert r.trace == posted;
      return;
    }
    var stored := SetTokenInfo(s, g.reply.body, g.issuedAt, posted);
    if !stored.outcome.Done? {
      assert r.trace == posted && !RefreshSucceeds(s, g);
      return;
    }
    var fetched := FetchUserInfo(stored.session, g.identity, posted);
    FetchUserInfoNotifications(stored.session, g.identity, posted);
    if !fetched.outcome.Done? {
      assert r.trace == fetched.trace && !RefreshSucceeds(s, g);
    } else if ctx.notify {
      NotificationsSnoc(fetched.trace, Notified(fetched.session.accessToken));
      assert r.trace == fetched.trace + [Notified(g.reply.body.accessToken)] && RefreshSucceeds(s, g);
    } else {
      assert r.trace == fetched.trace;
    }
  }

  /** The refresh is not atomic either: when the identity lookup fails after the new tokens are stored,
      the refresh throws with the new tokens beside the old identity, and nobody is notified. */
  lemma RefreshNotAtomic(s: Session, ctx: Context, g: GrantInput, tr: seq<Event>)
    requires !IsNullOrEmpty(s.refreshToken)
    requires g.reply.Response? && IsSuccessStatus(g.reply.status)
    requires ExpiryFor(g.issuedAt, g.reply.body.expiresIn).Some?
    requires !UsersListed(g.identity)
    ensures var r := Refresh(s, ctx, g, tr);
            && r.outcome.Threw?
            && r.session.accessToken == g.reply.body.accessToken && r.session.refreshToken == g.reply.body.refreshToken
            && SameIdentity(r.session, s)
            && Notifications(r.trace) == Notifications(tr)
  {
    RefreshNotifications(s, ctx, g, tr);
  }

  lemma RefreshOrder(s: Session, ctx: Context, g: GrantInput, tr: seq<Event>)
    requires IdentityBeforeNotify(tr)
    ensures IdentityBeforeNotify(Refresh(s, ctx, g, tr).trace)
  {
    var entered := tr + [RefreshStarted];
    IdentityBeforeNotifySnoc(tr, RefreshStarted);
    if !IsNullOrEmpty(s.refreshToken) {
      var posted := entered + [TokenPosted(RefreshForm(ctx, s.refreshToken.value))];
      IdentityBeforeNotifySnoc(entered, TokenPosted(RefreshForm(ctx, s.refreshToken.value)));
      if g.reply.Response? && IsSuccessStatus(g.reply.status) {
        var stored := SetTokenInfo(s, g.reply.body, g.issuedAt, posted);
        if stored.outcome.Done? {
          var fetched := FetchUserInfo(stored.session, g.identity, posted);
          FetchUserInfoOrder(stored.session, g.identity, posted);
          if fetched.outcome.Done? && ctx.notify {
            IdentityBeforeNotifySnoc(fetched.trace, Notified(fetched.session.accessToken));
          }
        }
      }
    }
  }

  /** A refresh is one refresh attempt and starts no flow. */
  lemma RefreshCounts(s: Session, ctx: Context, g: GrantInput, tr: seq<Event>, m: Event)
    requires Marker(m)
    ensures Count(Refresh(s, ctx, g, tr).trace, m) == Count(tr, m) + (if m == RefreshStarted then 1 else 0)
  {
    var r := Refresh(s, ctx, g, tr);
    var entered := tr + [RefreshStarted];
    CountSnoc(tr, RefreshStarted, m);
    if IsNullOrEmpty(s.refreshToken) {
      assert r.trace == entered;
    } else {
      var posted := entered + [TokenPosted(RefreshForm(ctx, s.refreshToken.value))];
      CountSnoc(entered, TokenPosted(RefreshForm(ctx, s.refreshToken.value)), m);
      if g.reply.TransportError? || !IsSuccessStatus(g.reply.status) {
        assert r.trace == posted;
      } else {
        var stored := SetTokenInfo(s, g.reply.body, g.issuedAt, posted);
        if !stored.outcome.Done? {
          assert r.trace == posted;
        } else {
          var fetched := FetchUserInfo(stored.session, g.identity, posted);
          FetchUserInfoCounts(stored.session, g.identity, posted, m);
          if fetched.outcome.Done? && ctx.notify {
            CountSnoc(fetched.trace, Notified(fetched.session.accessToken), m);
            assert r.trace == fetched.trace + [Notified(fetched.session.accessToken)];
          } else {
            assert r.trace == fetched.trace;
          }
        }
      }
    }
  }

  // ---------------------------------------------------------------- the authorization flow

  /** The browser and the listener came up, one request arrived, the page was written and its `state`
      is this flow's nonce: the only case in which the flow goes on to exchange a code. */
  predicate CallbackAccepted(f: FlowInput) {
    f.browserOpens && f.listenerBinds && f.callback.Some? && f.pageWritten && f.callback.value.state == Some(f.nonce)
  }

  /** What a flow has emitted up to the moment the listener stops. */
  function ListenerEvents(ctx: Context, f: FlowInput): (ev: seq<Event>)
    requires f.callback.Some?
    ensures ProviderUntouched(ev) && Count(ev, FlowStarted) == 1 && Count(ev, RefreshStarted) == 0
  {
    var ev := [FlowStarted, BrowserOpened(AuthorizeUrl(ctx.clientId, f.nonce)), ListenerStarted,
               CallbackReceived(f.callback.value), ListenerStopped];
    CountSnoc([], FlowStarted, FlowStarted);
    assert ev == [FlowStarted] + ev[1..];
    CountAppend([FlowStarted], ev[1..], FlowStarted);
    CountAppend([FlowStarted], ev[1..], RefreshStarted);
    assert Count(ev[1..], FlowStarted) == 0 && Count(ev[1..], RefreshStarted) == 0 by {
      QuietCount(ev[1..]);
    }
    ev
  }

  lemma {:induction false} QuietCount(ev: seq<Event>)
    requires forall i | 0 <= i < |ev| :: !Marker(ev[i])
    ensures Count(ev, FlowStarted) == 0 && Count(ev, RefreshStarted) == 0
  {
    if ev != [] {
      assert !Marker(ev[0]);
      assert forall i | 0 <= i < |ev[1..]| :: ev[1..][i] == ev[i + 1];
      QuietCount(ev[1..]);
    }
  }

  /** The events of a flow up to the callback's check, as the flow appends them. */
  lemma ListenerTrace(ctx: Context, f: FlowInput, tr: seq<Event>)
    requires f.callback.Some?
    ensures tr + [FlowStarted] + [BrowserOpened(AuthorizeUrl(ctx.clientId, f.nonce))] + [ListenerStarted]
               + [CallbackReceived(f.callback.value)] + [ListenerStopped] == tr + ListenerEvents(ctx, f)
  {
  }

  /** A callback whose `state` is not this flow's nonce fails the flow after the listener has answered
      its one request and stopped: no code is exchanged, no identity fetched, nobody notified, and the
      session is as it was. */
  lemma FlowCsrfMismatch(s: Session, ctx: Context, f: FlowInput, tr: seq<Event>)
    requires f.browserOpens && f.listenerBinds && f.callback.Some? && f.pageWritten
    requires f.callback.value.state != Some(f.nonce)
    ensures RunAuthFlow(s, ctx, f, tr) == Step(s, tr + ListenerEvents(ctx, f), Threw(CsrfMismatch))
    ensures Notifications(RunAuthFlow(s, ctx, f, tr).trace) == Notifications(tr)
  {
    ListenerTrace(ctx, f, tr);
    NotificationsAppend(tr, ListenerEvents(ctx, f));
    UntouchedMeansSilent(ListenerEvents(ctx, f));
  }

  /** The flow reaches the provider only with an accepted callback: in every other case it returns
      without a value, having contacted nobody and changed nothing. It never returns only when no
      request ever reaches the listener. */
  lemma FlowWithoutAcceptedCallback(s: Session, ctx: Context, f: FlowInput, tr: seq<Event>)
    requires !CallbackAccepted(f)
    ensures var r := RunAuthFlow(s, ctx, f, tr);
            && r.session == s && !r.outcome.Done?
            && (r.outcome.Blocked? <==> f.browserOpens && f.listenerBinds && f.callback.None?)
            && |tr| <= |r.trace| && r.trace[..|tr|] == tr && ProviderUntouched(r.trace[|tr|..])
  {
    var r := RunAuthFlow(s, ctx, f, tr);
    var launched := tr + [FlowStarted] + [BrowserOpened(AuthorizeUrl(ctx.clientId, f.nonce))];
    if !f.browserOpens || !f.listenerBinds {
      assert r.trace[|tr|..] == [FlowStarted, BrowserOpened(AuthorizeUrl(ctx.clientId, f.nonce))];
    } else if f.callback.None? {
      assert r.trace[|tr|..] == [FlowStarted, BrowserOpened(AuthorizeUrl(ctx.clientId, f.nonce)), ListenerStarted];
    } else {
      ListenerTrace(ctx, f, tr);
      assert r.trace[|tr|..] == ListenerEvents(ctx, f);
    }
  }

  /** The flow never returns exactly when the browser and the listener came up but no request arrives. */
  lemma FlowBlocked(s: Session, ctx: Context, f: FlowInput, tr: seq<Event>)
    ensures RunAuthFlow(s, ctx, f, tr).outcome.Blocked? <==> f.browserOpens && f.listenerBinds && f.callback.None?
  {
    if CallbackAccepted(f) {
      ExchangeSuccess(s, ctx, f.callback.value.code, f.exchange, tr + ListenerEvents(ctx, f));
      ListenerTrace(ctx, f, tr);
    }
  }

  /** The reply of the users endpoint lists at least one user. */
  predicate UsersListed(reply: Reply<seq<Identity>>) {
    reply.Response? && IsSuccessStatus(reply.status) && |reply.body| > 0
  }

  /** A flow completes exactly when its callback is accepted, the exchange of the callback's code
      succeeds and the second identity lookup succeeds; it then holds the exchanged tokens and the
      identity of the second lookup, having notified once, between the two lookups. */
  lemma FlowSuccess(s: Session, ctx: Context, f: FlowInput, tr: seq<Event>)
    ensures var r := RunAuthFlow(s, ctx, f, tr);
            var ok := CallbackAccepted(f) && ExchangeSucceeds(f.exchange) && UsersListed(f.identity);
            && (r.outcome.Done? <==> ok)
            && (ok ==>
                  var token := f.exchange.reply.body.accessToken;
                  && r.session == Acquired(f.exchange).(userId := f.identity.body[0].id, userLogin := f.identity.body[0].login,
                                                         displayName := f.identity.body[0].displayName)
                  && r.trace == tr + ListenerEvents(ctx, f) + [TokenPosted(CodeForm(ctx, f.callback.value.code))]
                                   + [IdentityRequested(token.GetOr(""))]
                                   + (if ctx.notify then [Notified(token)] else [])
                                   + [IdentityRequested(token.GetOr(""))])
  {
    if CallbackAccepted(f) {
      ListenerTrace(ctx, f, tr);
      ExchangeSuccess(s, ctx, f.callback.value.code, f.exchange, tr + ListenerEvents(ctx, f));
    }
  }

  /** A flow notifies once when the exchange of an accepted callback's code succeeds and a bot is
      registered, and never otherwise. */
  lemma FlowNotifications(s: Session, ctx: Context, f: FlowInput, tr: seq<Event>)
    ensures var r := RunAuthFlow(s, ctx, f, tr);
            Notifications(r.trace) == Notifications(tr)
              + (if CallbackAccepted(f) && ExchangeSucceeds(f.exchange) && ctx.notify then [f.exchange.reply.body.accessToken] else [])
  {
    if CallbackAccepted(f) {
      AcceptedFlowNotifications(s, ctx, f, tr);
    } else {
      var r := RunAuthFlow(s, ctx, f, tr);
      FlowWithoutAcceptedCallback(s, ctx, f, tr);
      assert r.trace == tr + r.trace[|tr|..];
      NotificationsAppend(tr, r.trace[|tr|..]);
      UntouchedMeansSilent(r.trace[|tr|..]);
    }
  }

  lemma AcceptedFlowNotifications(s: Session, ctx: Context, f: FlowInput, tr: seq<Event>)
    requires CallbackAccepted(f)
    ensures var r := RunAuthFlow(s, ctx, f, tr);
            Notifications(r.trace) == Notifications(tr)
              + (if ExchangeSucceeds(f.exchange) && ctx.notify then [f.exchange.reply.body.accessToken] else [])
  {
    var stopped := tr + ListenerEvents(ctx, f);
    ListenerTrace(ctx, f, tr);
    NotificationsAppend(tr, ListenerEvents(ctx, f));
    UntouchedMeansSilent(ListenerEvents(ctx, f));
    assert Notifications(stopped) == Notifications(tr);
    var exchanged := Exchange(s, ctx, f.callback.value.code, f.exchange, stopped);
    ExchangeNotifications(s, ctx, f.callback.value.code, f.exchange, stopped);
    if exchanged.outcome.Done? {
      var fetched := FetchUserInfo(exchanged.session, f.identity, exchanged.trace);
      FetchUserInfoNotifications(exchanged.session, f.identity, exchanged.trace);
      assert RunAuthFlow(s, ctx, f, tr) == fetched;
    } else {
      assert RunAuthFlow(s, ctx, f, tr) == exchanged;
    }
  }

  lemma FlowOrder(s: Session, ctx: Context, f: FlowInput, tr: seq<Event>)
    requires IdentityBeforeNotify(tr)
    ensures IdentityBeforeNotify(RunAuthFlow(s, ctx, f, tr).trace)
  {
    var started := tr + [FlowStarted];
    var launched := started + [BrowserOpened(AuthorizeUrl(ctx.clientId, f.nonce))];
    IdentityBeforeNotifySnoc(tr, FlowStarted);
    IdentityBeforeNotifySnoc(started, BrowserOpened(AuthorizeUrl(ctx.clientId, f.nonce)));
    if f.browserOpens && f.listenerBinds {
      var listening := launched + [ListenerStarted];
      IdentityBeforeNotifySnoc(launched, ListenerStarted);
      if f.callback.Some? {
        var received := listening + [CallbackReceived(f.callback.value)];
        IdentityBeforeNotifySnoc(listening, CallbackReceived(f.callback.value));
        IdentityBeforeNotifySnoc(received, ListenerStopped);
        if CallbackAccepted(f) {
          var stopped := received + [ListenerStopped];
          var exchanged := Exchange(s, ctx, f.callback.value.code, f.exchange, stopped);
          ExchangeOrder(s, ctx, f.callback.value.code, f.exchange, stopped);
          if exchanged.outcome.Done? {
            FetchUserInfoOrder(exchanged.session, f.identity, exchanged.trace);
          }
        }
      }
    }
  }

  /** A flow is one flow start and attempts no refresh. */
  lemma FlowCounts(s: Session, ctx: Context, f: FlowInput, tr: seq<Event>, m: Event)
    requires Marker(m)
    ensures Count(RunAuthFlow(s, ctx, f, tr).trace, m) == Count(tr, m) + (if m == FlowStarted then 1 else 0)
  {
    var r := RunAuthFlow(s, ctx, f, tr);
    var started := tr + [FlowStarted];
    var launched := started + [BrowserOpened(AuthorizeUrl(ctx.clientId, f.nonce))];
    CountSnoc(tr, FlowStarted, m);
    CountSnoc(started, BrowserOpened(AuthorizeUrl(ctx.clientId, f.nonce)), m);
    if !f.browserOpens || !f.listenerBinds {
      assert r.trace == launched;
    } else {
      var listening := launched + [ListenerStarted];
      CountSnoc(launched, ListenerStarted, m);
      if f.callback.None? {
        assert r.trace == listening;
      } else {
        var received := listening + [CallbackReceived(f.callback.value)];
        var stopped := received + [ListenerStopped];
        CountSnoc(listening, CallbackReceived(f.callback.value), m);
        CountSnoc(received, ListenerStopped, m);
        if !CallbackAccepted(f) {
          assert r.trace == stopped;
        } else {
          var exchanged := Exchange(s, ctx, f.callback.value.code, f.exchange, stopped);
          ExchangeCounts(s, ctx, f.callback.value.code, f.exchange, stopped, m);
          if exchanged.outcome.Done? {
            FetchUserInfoCounts(exchanged.session, f.identity, exchanged.trace, m);
          } else {
            assert r.trace == exchanged.trace;
          }
        }
      }
    }
  }

  // ---------------------------------------------------------------- validation

  /** `ValidateAsync` never changes the session. Without an access token it returns false without any
      request; otherwise it asks once, with that token, and answers whether the reply was 2xx. */
  lemma ValidateAnswers(s: Session, reply: Reply<()>, tr: seq<Event>)
    ensures var r := Validate(s, reply, tr);
            && r.session == s && !r.outcome.Blocked?
            && (IsNullOrEmpty(s.accessToken) ==> r.trace == tr && r.outcome == Done(false))
            && (!IsNullOrEmpty(s.accessToken) ==>
                  && r.trace == tr + [ValidationRequested(s.accessToken.value)]
                  && (r.outcome == Done(true) <==> reply.Response? && IsSuccessStatus(reply.status))
                  && (r.outcome.Threw? <==> reply.TransportError?))
  {
  }

  // ---------------------------------------------------------------- the recovery

  /** The recovery runs the full flow only when the refresh returned false, and then from the session
      as it was before the refresh. */
  lemma RenewFlowAfterRejection(s: Session, ctx: Context, g: GrantInput, f: FlowInput, tr: seq<Event>)
    ensures var refreshed := Refresh(s, ctx, g, tr);
            refreshed.outcome == Done(false) ==> Renew(s, ctx, g, f, tr) == RunAuthFlow(s, ctx, f, refreshed.trace)
  {
    RefreshRejections(s, ctx, g, tr);
  }

  /** The recovery is one refresh attempt, followed by one flow exactly when the refresh returned false. */
  lemma RenewCounts(s: Session, ctx: Context, g: GrantInput, f: FlowInput, tr: seq<Event>, m: Event)
    requires Marker(m)
    ensures var refreshed := Refresh(s, ctx, g, tr);
            Count(Renew(s, ctx, g, f, tr).trace, m)
              == Count(tr, m) + (if m == RefreshStarted || refreshed.outcome == Done(false) then 1 else 0)
  {
    var refreshed := Refresh(s, ctx, g, tr);
    RefreshCounts(s, ctx, g, tr, m);
    if refreshed.outcome == Done(false) {
      FlowCounts(refreshed.session, ctx, f, refreshed.trace, m);
    }
  }

  /** The recovery notifies at most once, and not at all when it never returns. */
  lemma RenewNotifications(s: Session, ctx: Context, g: GrantInput, f: FlowInput, tr: seq<Event>)
    ensures var r := Renew(s, ctx, g, f, tr);
            && Notifications(tr) <= Notifications(r.trace)
            && |Notifications(r.trace)| <= |Notifications(tr)| + (if r.outcome.Blocked? then 0 else 1)
  {
    var refreshed := Refresh(s, ctx, g, tr);
    RefreshNotifications(s, ctx, g, tr);
    if refreshed.outcome == Done(false) {
      RefreshSuccess(s, ctx, g, tr);
      FlowNotifications(refreshed.session, ctx, f, refreshed.trace);
      FlowBlocked(refreshed.session, ctx, f, refreshed.trace);
    } else if refreshed.outcome.Blocked? {
      RefreshSuccess(s, ctx, g, tr);
    }
  }

  lemma RenewOrder(s: Session, ctx: Context, g: GrantInput, f: FlowInput, tr: seq<Event>)
    requires IdentityBeforeNotify(tr)
    ensures IdentityBeforeNotify(Renew(s, ctx, g, f, tr).trace)
  {
    var refreshed := Refresh(s, ctx, g, tr);
    RefreshOrder(s, ctx, g, tr);
    if refreshed.outcome == Done(false) {
      FlowOrder(refreshed.session, ctx, f, refreshed.trace);
    }
  }

  // ---------------------------------------------------------------- EnsureValidAsync

  /** Without an access token, `EnsureValidAsync` is the full flow and nothing else. */
  lemma EnsureValidWithoutToken(s: Session, ctx: Context, e: EnsureInput, tr: seq<Event>)
    requires IsNullOrEmpty(s.accessToken)
    ensures EnsureValid(s, ctx, e, tr) == RunAuthFlow(s, ctx, e.flow, tr)
  {
  }

  /** The token is stale: it has expired, or the provider answered that it is not valid. */
  predicate Stale(s: Session, e: EnsureInput) {
    !IsNullOrEmpty(s.accessToken)
    && (e.now >= s.expiresAt || (e.validate.Response? && !IsSuccessStatus(e.validate.status)))
  }

  /** What `EnsureValidAsync` has emitted when it has decided whether the token is stale. */
  function Checked(s: Session, e: EnsureInput, tr: seq<Event>): seq<Event>
    requires !IsNullOrEmpty(s.accessToken)
  {
    if e.now >= s.expiresAt then tr else tr + [ValidationRequested(s.accessToken.value)]
  }

  /** With an access token, `EnsureValidAsync` attempts one refresh exactly when the token is stale, and
      starts a flow exactly when that refresh returns false. With none, it starts one flow. */
  lemma EnsureValidCounts(s: Session, ctx: Context, e: EnsureInput, tr: seq<Event>, m: Event)
    requires Marker(m)
    ensures var r := EnsureValid(s, ctx, e, tr);
            Count(r.trace, m) == Count(tr, m) +
              (if IsNullOrEmpty(s.accessToken) then (if m == FlowStarted then 1 else 0)
               else if !Stale(s, e) then 0
               else if m == RefreshStarted || Refresh(s, ctx, e.refresh, Checked(s, e, tr)).outcome == Done(false) then 1
               else 0)
  {
    if IsNullOrEmpty(s.accessToken) {
      FlowCounts(s, ctx, e.flow, tr, m);
    } else {
      var check := StillValid(s, e, tr);
      ValidateAnswers(s, e.validate, tr);
      if e.now < s.expiresAt {
        CountSnoc(tr, ValidationRequested(s.accessToken.value), m);
      }
      if check.outcome.Done? {
        var renewed := if check.outcome.value then Step(s, check.trace, Done(())) else Renew(s, ctx, e.refresh, e.flow, check.trace);
        if !check.outcome.value {
          RenewCounts(s, ctx, e.refresh, e.flow, check.trace, m);
        }
        if renewed.outcome.Done? {
          FetchUserInfoCounts(renewed.session, e.identity, renewed.trace, m);
        }
      }
    }
  }

  lemma EnsureValidOrder(s: Session, ctx: Context, e: EnsureInput, tr: seq<Event>)
    requires IdentityBeforeNotify(tr)
    ensures IdentityBeforeNotify(EnsureValid(s, ctx, e, tr).trace)
  {
    if IsNullOrEmpty(s.accessToken) {
      FlowOrder(s, ctx, e.flow, tr);
    } else {
      var check := StillValid(s, e, tr);
      if e.now < s.expiresAt {
        IdentityBeforeNotifySnoc(tr, ValidationRequested(s.accessToken.value));
      }
      if check.outcome.Done? {
        var renewed := if check.outcome.value then Step(s, check.trace, Done(())) else Renew(s, ctx, e.refresh, e.flow, check.trace);
        if !check.outcome.value {
          RenewOrder(s, ctx, e.refresh, e.flow, check.trace);
        }
        if renewed.outcome.Done? {
          FetchUserInfoOrder(renewed.session, e.identity, renewed.trace);
        }
      }
    }
  }

  // ---------------------------------------------------------------- one watcher iteration

  /** A watcher iteration attempts one refresh exactly when a refresh is due, and starts one flow
      exactly when that refresh returned false. */
  lemma TickCounts(s: Session, ctx: Context, t: TickInput, tr: seq<Event>, m: Event)
    requires Marker(m)
    ensures var r := Tick(s, ctx, t, tr);
            Count(r.trace, m) == Count(tr, m) +
              (if !RefreshDue(s, t.now) then 0
               else if m == RefreshStarted || Refresh(s, ctx, t.refresh, tr).outcome == Done(false) then 1
               else 0)
  {
    var r := Tick(s, ctx, t, tr);
    if !RefreshDue(s, t.now) {
      assert r.trace == tr;
      return;
    }
    var renewed := Renew(s, ctx, t.refresh, t.flow, tr);
    RenewCounts(s, ctx, t.refresh, t.flow, tr, m);
    if renewed.outcome.Done? {
      FetchUserInfoCounts(renewed.session, t.identity, renewed.trace, m);
      assert r.trace == FetchUserInfo(renewed.session, t.identity, renewed.trace).trace;
    } else {
      assert r.trace == renewed.trace;
    }
  }

  /** A watcher iteration never throws: it ends with the sleep computed from the expiry as it then
      stands, which lies between zero and one minute, or never returns, which happens exactly when a
      due refresh returned false and its flow waits for a callback that never comes. When no refresh is
      due it does nothing but sleep. */
  lemma TickOutcome(s: Session, ctx: Context, t: TickInput, tr: seq<Event>)
    ensures var r := Tick(s, ctx, t, tr);
            && !r.outcome.Threw?
            && (r.outcome.Done? ==> r.outcome.value == NextDelay(r.session.expiresAt, t.wakeClock)
                                    && 0 <= r.outcome.value <= MinuteMs)
            && (r.outcome.Blocked? <==>
                  RefreshDue(s, t.now) && Refresh(s, ctx, t.refresh, tr).outcome == Done(false)
                  && t.flow.browserOpens && t.flow.listenerBinds && t.flow.callback.None?)
            && (!RefreshDue(s, t.now) ==> r == Step(s, tr, Done(NextDelay(s.expiresAt, t.wakeClock))))
  {
    if RefreshDue(s, t.now) {
      var refreshed := Refresh(s, ctx, t.refresh, tr);
      RefreshSuccess(s, ctx, t.refresh, tr);
      if refreshed.outcome == Done(false) {
        FlowBlocked(refreshed.session, ctx, t.flow, refreshed.trace);
      }
    }
  }

  /** A watcher iteration notifies at most once, and not at all when it never returns. */
  lemma TickNotifications(s: Session, ctx: Context, t: TickInput, tr: seq<Event>)
    ensures var r := Tick(s, ctx, t, tr);
            && Notifications(tr) <= Notifications(r.trace)
            && |Notifications(r.trace)| <= |Notifications(tr)| + (if r.outcome.Blocked? then 0 else 1)
  {
    if RefreshDue(s, t.now) {
      var renewed := Renew(s, ctx, t.refresh, t.flow, tr);
      RenewNotifications(s, ctx, t.refresh, t.flow, tr);
      if renewed.outcome.Done? {
        FetchUserInfoNotifications(renewed.session, t.identity, renewed.trace);
      }
    }
  }

  lemma TickOrder(s: Session, ctx: Context, t: TickInput, tr: seq<Event>)
    requires IdentityBeforeNotify(tr)
    ensures IdentityBeforeNotify(Tick(s, ctx, t, tr).trace)
  {
    if RefreshDue(s, t.now) {
      var renewed := Renew(s, ctx, t.refresh, t.flow, tr);
      RenewOrder(s, ctx, t.refresh, t.flow, tr);
      if renewed.outcome.Done? {
        FetchUserInfoOrder(renewed.session, t.identity, renewed.trace);
      }
    }
  }

  /** The sleep after an iteration is between zero and one minute. */
  lemma TickDelayBounded(s: Session, ctx: Context, t: TickInput, tr: seq<Event>)
    ensures var r := Tick(s, ctx, t, tr);
            r.outcome.Done? ==> 0 <= r.outcome.value <= MinuteMs
  {
  }

  /** An iteration that never returns waits for a callback that never comes. */
  lemma TickBlockedWaits(s: Session, ctx: Context, t: TickInput, tr: seq<Event>)
    ensures var r := Tick(s, ctx, t, tr);
            !r.outcome.Threw? && (r.outcome.Blocked? ==> t.flow.callback.None?)
  {
    TickOutcome(s, ctx, t, tr);
  }

  /** The first iteration on a fresh session: with no token a refresh is due, it returns false without
      a request since there is no refresh token, and the full flow starts. When that flow does not get
      as far as an exchange, the session stays fresh and the iteration either never returns or sleeps
      the ten-second retry interval, since `ExpiresAt` is still `DateTime.MinValue`. */
  lemma FirstTick(ctx: Context, t: TickInput, tr: seq<Event>)
    ensures var r := Tick(InitialSession, ctx, t, tr);
            && Count(r.trace, RefreshStarted) == Count(tr, RefreshStarted) + 1
            && Count(r.trace, FlowStarted) == Count(tr, FlowStarted) + 1
            && (!CallbackAccepted(t.flow) ==> r.session == InitialSession && (r.outcome.Blocked? || r.outcome == Done(RetryDelayMs)))
  {
    TickCounts(InitialSession, ctx, t, tr, RefreshStarted);
    TickCounts(InitialSession, ctx, t, tr, FlowStarted);
    var refreshed := Refresh(InitialSession, ctx, t.refresh, tr);
    if !CallbackAccepted(t.flow) {
      FlowWithoutAcceptedCallback(InitialSession, ctx, t.flow, refreshed.trace);
    }
  }

  // ---------------------------------------------------------------- the watcher loop

  /** Every sleep of the watcher lies between zero and one minute, and there is at most one per
      iteration. */
  lemma {:induction false} WatchDelays(s: Session, ctx: Context, ticks: seq<TickInput>, tr: seq<Event>)
    ensures var w := Watch(s, ctx, ticks, tr);
            |w.delays| <= |ticks| && forall i | 0 <= i < |w.delays| :: 0 <= w.delays[i] <= MinuteMs
    decreases |ticks|
  {
    if ticks != [] {
      var before := Watch(s, ctx, ticks[..|ticks| - 1], tr);
      WatchDelays(s, ctx, ticks[..|ticks| - 1], tr);
      if before.status == Running {
        TickDelayBounded(before.session, ctx, ticks[|ticks| - 1], before.trace);
      }
    }
  }

  /** No stop was requested in the first `n` iterations. */
  predicate NoStopBefore(ticks: seq<TickInput>, n: int) {
    forall j | 0 <= j < n && j < |ticks| :: !ticks[j].stopRequested
  }

  /** An exception never ends the watcher: while it runs it has slept once after every iteration, and
      no stop was requested. */
  lemma {:induction false} WatchRunning(s: Session, ctx: Context, ticks: seq<TickInput>, tr: seq<Event>)
    ensures var w := Watch(s, ctx, ticks, tr);
            w.status == Running ==> |w.delays| == |ticks| && NoStopBefore(ticks, |ticks|)
    decreases |ticks|
  {
    if ticks != [] {
      var prefix := ticks[..|ticks| - 1];
      var before := Watch(s, ctx, prefix, tr);
      WatchRunning(s, ctx, prefix, tr);
      if before.status == Running {
        assert forall j | 0 <= j < |prefix| :: prefix[j] == ticks[j];
      }
    }
  }

  /** A stop request ends the watcher after the iteration during whose sleep it came, and only the
      first such request counts. */
  lemma {:induction false} WatchCancelled(s: Session, ctx: Context, ticks: seq<TickInput>, tr: seq<Event>)
    ensures var w := Watch(s, ctx, ticks, tr);
            w.status == Cancelled ==>
              var n := |w.delays|;
              0 < n <= |ticks| && ticks[n - 1].stopRequested && NoStopBefore(ticks, n - 1)
    decreases |ticks|
  {
    if ticks != [] {
      var prefix := ticks[..|ticks| - 1];
      var before := Watch(s, ctx, prefix, tr);
      WatchCancelled(s, ctx, prefix, tr);
      WatchRunning(s, ctx, prefix, tr);
      assert forall j | 0 <= j < |prefix| :: prefix[j] == ticks[j];
    }
  }

  /** The watcher gets stuck only in an iteration whose flow waits for a callback that never comes, and
      only when it was not asked to stop before. */
  lemma {:induction false} WatchStuck(s: Session, ctx: Context, ticks: seq<TickInput>, tr: seq<Event>)
    ensures var w := Watch(s, ctx, ticks, tr);
            w.status == Stuck ==>
              var n := |w.delays|;
              n < |ticks| && ticks[n].flow.callback.None? && NoStopBefore(ticks, n)
    decreases |ticks|
  {
    if ticks != [] {
      var prefix := ticks[..|ticks| - 1];
      var before := Watch(s, ctx, prefix, tr);
      assert forall j | 0 <= j < |prefix| :: prefix[j] == ticks[j];
      if before.status != Running {
        WatchStuck(s, ctx, prefix, tr);
        assert Watch(s, ctx, ticks, tr) == before;
      } else {
        WatchRunning(s, ctx, prefix, tr);
        var last := ticks[|ticks| - 1];
        var step := Tick(before.session, ctx, last, before.trace);
        TickBlockedWaits(before.session, ctx, last, before.trace);
        if step.outcome.Blocked? {
          assert Watch(s, ctx, ticks, tr) == WatchRun(step.session, step.trace, before.delays, Stuck);
          assert |before.delays| == |prefix| && last.flow.callback.None?;
        } else {
          assert Watch(s, ctx, ticks, tr).status != Stuck;
        }
      }
    }
  }

  /** The watcher notifies at most once per completed iteration. */
  lemma {:induction false} WatchNotifications(s: Session, ctx: Context, ticks: seq<TickInput>, tr: seq<Event>)
    ensures var w := Watch(s, ctx, ticks, tr);
            Notifications(tr) <= Notifications(w.trace) && |Notifications(w.trace)| <= |Notifications(tr)| + |w.delays|
    decreases |ticks|
  {
    if ticks != [] {
      var before := Watch(s, ctx, ticks[..|ticks| - 1], tr);
      WatchNotifications(s, ctx, ticks[..|ticks| - 1], tr);
      if before.status == Running {
        TickNotifications(before.session, ctx, ticks[|ticks| - 1], before.trace);
      }
    }
  }

  /** Every notification the watcher makes comes right after the identity request for its token. */
  lemma {:induction false} WatchOrder(s: Session, ctx: Context, ticks: seq<TickInput>, tr: seq<Event>)
    requires IdentityBeforeNotify(tr)
    ensures IdentityBeforeNotify(Watch(s, ctx, ticks, tr).trace)
    decreases |ticks|
  {
    if ticks != [] {
      var before := Watch(s, ctx, ticks[..|ticks| - 1], tr);
      WatchOrder(s, ctx, ticks[..|ticks| - 1], tr);
      if before.status == Running {
        TickOrder(before.session, ctx, ticks[|ticks| - 1], before.trace);
      }
    }
  }
}
