# Cartagena: the Twitch session and its console, in Dafny

This project models the two pieces of logic of the Cartagena Twitch bot:

- **The OAuth session `TwitchAuth`** (TwitchAuth.cs). It follows the authorization-code grant of RFC 6749:
  - the authorization request with a `state` nonce (section 4.1.1);
  - the code exchange (section 4.1.3);
  - refresh (section 6);
  - the `state` check against cross-site request forgery (section 10.12).

  Other parts of the session: storing a token reply and its expiry ten minutes early, the identity lookup, validation, the "ensure valid" recovery, and the token watcher loop with its sleep rule.
- **The console front end `Program`** (Program.cs):
  - the masked secret editor;
  - the command loop, which splits a line into words and looks the command up case-insensitively;
  - the guards of the `twitchbot` command.

Both are modelled the way the C# works: as classes whose fields the methods update in place.

- `TwitchAuthModel.TwitchAuth` has the six token and identity properties as fields (`BotReference` becomes the flag `BotRegistered`), plus `_cts` and a ghost `trace`. The trace is every event the session makes visible, in order:
  - requests to the provider;
  - the browser launch;
  - the callback listener's life;
  - the tokens handed to the bot.
- `ProgramModel.Program` has the static `clientSecret` and `twitchBot` as fields, plus a ghost log of what the shell reports.

Every method is proved equal to a function of the state before the call and of what the world answers during it. For the session these functions are in `AuthSpec`; for the console they are in `ConsoleSpec`. The properties are lemmas about those functions, in `AuthProperties` and `ConsoleProperties`.

The world enters as parameters, never as I/O:

- **Provider replies.** Each one is `TransportError` or a status code with an already-parsed JSON body.
- **The clock.** Time is whole milliseconds since `DateTime.MinValue`.
- **The nonce.** It is given, and the browser, the listener and the callback it receives are given with it.
- **Console input.** A line arrives as the value `Console.ReadLine` returns. A secret arrives as the keys `Console.ReadKey` returns.
- **Watcher stops.** Whether `StopTokenWatcher` is called while the watcher sleeps is given per iteration.

An exception is the outcome `Threw(fault)`. A call that never returns is the outcome `Blocked`. It happens in two places:

- a flow whose listener never gets a request (there is no timeout);
- a secret that is never ended by Enter.

The model follows the code, including where its behaviour is surprising:

- **Validation.** `ValidateAsync` throws when the transport fails. It does not answer "invalid".
- **Browser launch.** A failing browser launch throws and ends the flow.
- **Non-atomic update.** The token update is not atomic with the identity update. If the identity lookup fails after the tokens were stored, the session keeps the new tokens beside the old identity and nobody is notified. This holds for the code exchange (`ExchangeNotAtomic`) and for a refresh (`RefreshNotAtomic`), whose exception the watcher then swallows.
- **Identity fetched twice.** A flow fetches identity twice: once inside the code exchange and once at its end. The notification comes between the two lookups (`FlowSuccess`).
- **No watcher guard.** Starting a watcher simply replaces `_cts`. Nothing guards against a second watcher.
- **Watcher sleep.** If the token expires later than now but within one minute, the watcher sleeps 10 s. Only once the expiry has passed does it refresh.
- **Usage text.** The usage of `twitchbot` names the command `bot`. That is not a command of the table (`LookupNames`).
- **Expiry wrap-around.** `expires_in - 600` is unchecked 32-bit arithmetic. An `expires_in` within 600 of `int.MinValue` wraps around to an expiry about 68 years ahead (`ExpiryFor`).

## Model

| member | source | states |
|---|---|---|
| AuthTypes.Wrap32 | TwitchAuth.cs:36 | C#'s unchecked `int` subtraction: exact inside the 32-bit range, shifted by 2^32 just below it |
| AuthTypes.ExpiryFor | TwitchAuth.cs:35-36 | the recorded expiry is exactly 600 s before the provider's expiry whenever `expires_in - 600` does not wrap, and is absent exactly when it falls outside the range of `DateTime`; when the subtraction wraps, the expiry is at least about 68 years ahead |
| AuthTypes.NextDelay | TwitchAuth.cs:206-210 | the sleep is in [0, 60000] ms; it is one minute when expiry is at least two minutes off; it ends exactly one minute before expiry when expiry is one to two minutes off; it never sleeps past one minute before expiry; it is 10 s when expiry is less than a minute off, in particular for `ExpiresAt = DateTime.MinValue` |
| AuthTypes.Notifications | TwitchAuth.cs:148 | at most one token is handed to the bot per event of the trace |
| AuthTypes.NotificationsAppend | TwitchAuth.cs:148 | the notifications of two traces run together are those of each, in order |
| AuthTypes.UntouchedMeansSilent | TwitchAuth.cs:94 | a trace with no provider request and no notification hands no token to the bot |
| AuthSpec.AuthorizeUrl | TwitchAuth.cs:41-47 | the authorization URL is on the authorize endpoint and ends with `&state=` and the nonce |
| AuthSpec.CodeForm | TwitchAuth.cs:80-87 | the code exchange posts `grant_type=authorization_code`, the code and the redirect URI |
| AuthSpec.RefreshForm | TwitchAuth.cs:131-137 | the refresh posts `grant_type=refresh_token` and the refresh token, and neither a code nor a redirect URI |
| AuthProperties.SetTokenInfoStores | TwitchAuth.cs:31-37 | both tokens take the reply's values and the identity is untouched; `ExpiresAt = now + (expires_in - 600)` s when no wrap occurs; when the expiry is out of range the call throws, leaving the old expiry beside the new tokens; nothing is emitted |
| AuthProperties.FetchUserInfoUpdates | TwitchAuth.cs:97-111 | exactly one lookup with the current token as bearer; it succeeds iff the reply is 2xx with at least one user, and then the identity fields take the first user's values; on failure the session is unchanged; the tokens are never touched |
| AuthProperties.FetchUserInfoNotifications | TwitchAuth.cs:97-111 | an identity lookup notifies nobody |
| AuthProperties.FetchUserInfoOrder | TwitchAuth.cs:97-111 | an identity lookup keeps "every notification directly follows a lookup made with the same token" |
| AuthProperties.FetchUserInfoCounts | TwitchAuth.cs:97-111 | an identity lookup starts no refresh and no flow |
| AuthProperties.ExchangeSuccess | TwitchAuth.cs:77-95 | the exchange returns iff the reply is 2xx, the expiry is in range and the users endpoint lists a user; it then leaves the session `Acquired` (the reply's tokens and expiry, the first user's identity) and emits, in order, the post, the lookup with the new token, and one notification with that token iff a bot is registered |
| AuthProperties.ExchangeNotifications | TwitchAuth.cs:89-94 | an exchange hands the new access token to the bot exactly once if it succeeds and a bot is registered, and otherwise hands over nothing |
| AuthProperties.ExchangeOrder | TwitchAuth.cs:91-94 | in an exchange the identity is fetched with the new token before the bot is told about it |
| AuthProperties.ExchangeCounts | TwitchAuth.cs:77-95 | an exchange starts neither a refresh nor a flow |
| AuthProperties.ExchangeNotAtomic | TwitchAuth.cs:89-94 | when the identity lookup fails after the tokens were stored (failed transport, non-2xx reply or empty user list), the exchange throws, leaving the new tokens beside the old identity, and notifies nobody |
| AuthProperties.ListenerEvents | TwitchAuth.cs:39-68 | up to the stop of the listener a flow has made no provider request and notified nobody, and has started exactly one flow and no refresh |
| AuthProperties.FlowCsrfMismatch | TwitchAuth.cs:56-73 | when the callback's `state` is not the nonce, the flow throws with the session unchanged, after exactly one accepted request and the listener's stop, without any code exchange, identity lookup or notification |
| AuthProperties.FlowWithoutAcceptedCallback | TwitchAuth.cs:39-73 | a flow without an accepted callback never returns normally, leaves the session unchanged and reaches no provider endpoint; it waits forever iff the browser opens, the listener binds and no request arrives |
| AuthProperties.FlowBlocked | TwitchAuth.cs:53-56 | a flow waits forever exactly when the browser opens, the listener binds and no request ever arrives (there is no timeout) |
| AuthProperties.FlowSuccess | TwitchAuth.cs:39-75 | a flow returns iff the callback is accepted, the exchange succeeds and the second lookup lists a user; it then holds the exchanged tokens and the second lookup's identity, and its exact trace has the lookup, the notification and a second lookup in that order |
| AuthProperties.FlowNotifications | TwitchAuth.cs:39-75 | a flow notifies once with the exchanged token iff the callback is accepted, the exchange succeeds and a bot is registered, and otherwise never |
| AuthProperties.FlowOrder | TwitchAuth.cs:73-74 | a flow keeps "every notification directly follows a lookup with the same token" |
| AuthProperties.FlowCounts | TwitchAuth.cs:39-75 | a flow starts exactly one flow and no refresh |
| AuthProperties.ValidateAnswers | TwitchAuth.cs:113-123 | without an access token validation answers false without any request; otherwise it makes one request with the token and answers true iff the reply is 2xx, throwing on a transport failure; the session is unchanged |
| AuthProperties.RefreshRejections | TwitchAuth.cs:125-140 | a refresh answers false exactly when there is no refresh token (then nothing is posted) or the provider rejects it (then after one post); both leave the session unchanged and notify nobody |
| AuthProperties.RefreshSuccess | TwitchAuth.cs:125-151 | a refresh answers true iff there is a refresh token and the reply, expiry and identity lookup succeed; it then leaves `Acquired` with the exact trace post, lookup with the new token, notification iff a bot is registered |
| AuthProperties.RefreshNotifications | TwitchAuth.cs:142-150 | a refresh notifies exactly once with the new token iff it succeeds and a bot is registered |
| AuthProperties.RefreshNotAtomic | TwitchAuth.cs:142-146 | when the identity lookup fails after a refresh stored the new tokens, the refresh throws, leaving the new tokens beside the old identity, and notifies nobody |
| AuthProperties.RefreshOrder | TwitchAuth.cs:143-148 | a refresh fetches identity with the new token before the bot is told |
| AuthProperties.RefreshCounts | TwitchAuth.cs:125-151 | a refresh is one refresh and starts no flow |
| AuthProperties.RenewFlowAfterRejection | TwitchAuth.cs:164-168 | when the refresh answers false, the recovery is the full flow from the state the refresh left |
| AuthProperties.RenewCounts | TwitchAuth.cs:191-196 | the recovery refreshes once, and runs the flow iff the refresh answered false |
| AuthProperties.RenewNotifications | TwitchAuth.cs:191-196 | the recovery notifies at most once, and not at all when it never returns |
| AuthProperties.RenewOrder | TwitchAuth.cs:164-168 | the recovery keeps "every notification directly follows a lookup with the same token" |
| AuthProperties.EnsureValidWithoutToken | TwitchAuth.cs:155-159 | without an access token, `EnsureValidAsync` is exactly the full flow, with nothing after it |
| AuthProperties.EnsureValidCounts | TwitchAuth.cs:153-172 | with a token, nothing is refreshed while the token is neither expired nor rejected by validation; otherwise one refresh is made, and a flow runs iff the refresh answered false |
| AuthProperties.EnsureValidOrder | TwitchAuth.cs:153-172 | `EnsureValidAsync` keeps "every notification directly follows a lookup with the same token" |
| AuthProperties.TickCounts | TwitchAuth.cs:184-199 | an iteration refreshes iff there is no access token or the expiry has come, and runs the full flow iff additionally the refresh answered false |
| AuthProperties.TickOutcome | TwitchAuth.cs:181-212 | an iteration never throws; it sleeps `NextDelay` of the expiry as the work left it, in [0, 60000] ms; it waits forever iff it is due, the refresh answered false and the flow's listener gets no request; when it is not due, nothing happens before the sleep |
| AuthProperties.TickDelayBounded | TwitchAuth.cs:206-212 | an iteration's sleep is in [0, 60000] ms |
| AuthProperties.TickBlockedWaits | TwitchAuth.cs:181-204 | an iteration never throws, and it waits forever only in a flow that gets no callback |
| AuthProperties.TickNotifications | TwitchAuth.cs:181-204 | an iteration notifies at most once, and not at all when it never returns |
| AuthProperties.TickOrder | TwitchAuth.cs:181-204 | an iteration keeps "every notification directly follows a lookup with the same token" |
| AuthProperties.FirstTick | TwitchAuth.cs:187-210 | on a fresh session the first iteration refreshes once and runs the flow once; without an accepted callback it leaves the session fresh and waits forever or sleeps 10 s |
| AuthProperties.WatchDelays | TwitchAuth.cs:179-214 | the watcher sleeps at most once per iteration, each time for [0, 60000] ms |
| AuthProperties.WatchRunning | TwitchAuth.cs:179-214 | an exception never ends the watcher: while it runs it has slept after every iteration and no stop was requested |
| AuthProperties.WatchCancelled | TwitchAuth.cs:175-221 | the watcher is cancelled only by a stop requested during the sleep of its last iteration |
| AuthProperties.WatchStuck | TwitchAuth.cs:179-214 | the watcher hangs only in an iteration whose flow listener never gets a request, with no stop requested before it |
| AuthProperties.WatchNotifications | TwitchAuth.cs:179-214 | the watcher hands out at most one token per completed iteration |
| AuthProperties.WatchOrder | TwitchAuth.cs:179-214 | the watcher keeps "every notification directly follows a lookup with the same token" |
| TwitchAuthModel.TwitchAuth.constructor | TwitchAuth.cs:18-29 | a new session has no tokens, no identity, `ExpiresAt = DateTime.MinValue` and no watcher |
| TwitchAuthModel.TwitchAuth.SetTokenInfo | TwitchAuth.cs:31-37 | updates the fields exactly as `AuthSpec.SetTokenInfo` |
| TwitchAuthModel.TwitchAuth.FetchUserInfo | TwitchAuth.cs:97-111 | updates the fields and the trace exactly as `AuthSpec.FetchUserInfo` |
| TwitchAuthModel.TwitchAuth.ExchangeCodeForToken | TwitchAuth.cs:77-95 | updates the fields and the trace exactly as `AuthSpec.Exchange` |
| TwitchAuthModel.TwitchAuth.RunAuthFlow | TwitchAuth.cs:39-75 | updates the fields and the trace and ends exactly as `AuthSpec.RunAuthFlow` |
| TwitchAuthModel.TwitchAuth.Validate | TwitchAuth.cs:113-123 | answers exactly as `AuthSpec.Validate`, changing no field |
| TwitchAuthModel.TwitchAuth.RefreshAccessToken | TwitchAuth.cs:125-151 | updates the fields and the trace and answers exactly as `AuthSpec.Refresh` |
| TwitchAuthModel.TwitchAuth.Renew | TwitchAuth.cs:191-196 | the shared recovery, exactly as `AuthSpec.Renew` |
| TwitchAuthModel.TwitchAuth.EnsureValid | TwitchAuth.cs:153-172 | updates the fields and the trace and ends exactly as `AuthSpec.EnsureValid` |
| TwitchAuthModel.TwitchAuth.Tick | TwitchAuth.cs:181-212 | one watcher iteration, exactly as `AuthSpec.Tick`; the session's watcher is not touched |
| TwitchAuthModel.TwitchAuth.StartTokenWatcher | TwitchAuth.cs:175-215 | runs iterations while not cancelled, leaving fields, trace and sleeps exactly as `AuthSpec.Watch`; `_cts` is a fresh source, kept while the watcher runs and cleared when it is cancelled |
| TwitchAuthModel.TwitchAuth.StopTokenWatcher | TwitchAuth.cs:217-221 | cancels the current watcher's source, if any, and clears `_cts`, changing nothing else |
| ConsoleSpec.FirstEnter | Program.cs:91-106 | the keys read are those up to the first Enter, none of which is Enter |
| ConsoleSpec.Word | Program.cs:28 | a word is the longest space-free prefix |
| ConsoleSpec.Split | Program.cs:28 | `Split(' ', RemoveEmptyEntries)` gives non-empty words without spaces |
| ConsoleSpec.SplitFindsWord | Program.cs:26-29 | a line with a character other than a space has a first word, so `parts[0]` exists |
| ConsoleSpec.ParseLine | Program.cs:25-30 | a null or white-space line is skipped; any other line is its first word, the command, followed by the remaining words as arguments, in order |
| ConsoleProperties.TypedBound | Program.cs:96-105 | the secret is never longer than the number of keys read |
| ConsoleProperties.TypedClean | Program.cs:101-104 | the secret never holds a control character |
| ConsoleProperties.EchoMasked | Program.cs:99-104 | the editor only ever shows asterisks and the back-blank-back erasure |
| ConsoleProperties.EchoHidesSecret | Program.cs:96-105 | two key streams that differ only in which printable characters were typed show the same echo and leave secrets of the same length: the echo reveals nothing of the secret |
| ConsoleProperties.KeyEffect | Program.cs:96-105 | Backspace on a non-empty secret removes exactly the last character; a non-control character is appended at the end and echoes one `*`; anything else, including Backspace on an empty secret with its control character `'\b'`, changes nothing |
| ConsoleProperties.TypeThenErase | Program.cs:96-105 | typing a character and then Backspace gives the secret back |
| ConsoleProperties.ReadSecretAtEnter | Program.cs:93-95 | Enter ends reading, is not part of the secret, and the keys after it are not read |
| ConsoleProperties.ReadSecretWithoutEnter | Program.cs:91-106 | without Enter, reading never ends |
| ConsoleProperties.ReadSecretBound | Program.cs:86-110 | the secret is no longer than the keys read before Enter |
| ConsoleProperties.SplitKeepsCharacters | Program.cs:28 | the words, run together, are the line without its spaces |
| ConsoleProperties.SplitEmptyIff | Program.cs:28 | a line has no word iff it is all spaces |
| ConsoleProperties.SplitJoin | Program.cs:28 | splitting words joined by single spaces gives them back |
| ConsoleProperties.ParseJoined | Program.cs:25-30 | a command typed with its arguments is read back as that command with those arguments |
| ConsoleProperties.ParseWords | Program.cs:26-30 | a line that is not blank is split into its command and its arguments |
| ConsoleProperties.LookupIgnoresCase | Program.cs:16-32 | commands that differ only in case run the same action |
| ConsoleProperties.LookupNames | Program.cs:16-21 | `SECRET` and `TwitchBot` are found; `bot`, the name in the usage text, is not |
| ConsoleProperties.BlankLineSkipped | Program.cs:25-26 | a null or blank line changes nothing and reports nothing |
| ConsoleProperties.UnknownCommandIgnored | Program.cs:32-39 | an unknown command is reported and nothing is dispatched |
| ConsoleProperties.TwitchBotUsageFirst | Program.cs:46-51 | without a subcommand only the usage is printed, before the secret check |
| ConsoleProperties.TwitchBotNeedsSecret | Program.cs:52-60 | without a secret no bot is created or initialised and the state is unchanged; the "not connected" warning changes nothing |
| ConsoleProperties.TwitchBotBot | Program.cs:56-69 | `twitchbot` never changes the secret; it keeps an existing bot; iff `start` runs with a secret and no bot, it creates one with that secret |
| ConsoleProperties.TwitchBotEnds | Program.cs:44-75 | `twitchbot` ends the loop only when `start` initialises the bot and that throws or never returns; the log only grows |
| ConsoleProperties.StartTwice | Program.cs:62-69 | a second `start` reuses the bot the first created |
| ConsoleProperties.ProcessLineEnds | Program.cs:25-39 | a line ends the loop only if it is `secret` without Enter or `twitchbot start` whose initialisation fails; only the latter crashes it |
| ConsoleProperties.ProcessLineKeepsBot | Program.cs:62-69 | once there is a bot it keeps the secret it was created with, even when `secret` replaces the client secret |
| ConsoleProperties.RunEnds | Program.cs:23-40 | the loop processes every line unless one stops it; then the last line processed is one that may stop it |
| ConsoleProperties.RunKeepsBot | Program.cs:62-69 | over a whole session, an existing bot keeps its secret |
| ProgramModel.Bot.constructor | Program.cs:66 | a bot holds the client id and the secret it was created with |
| ProgramModel.Program.constructor | Program.cs:6-7 | no secret and no bot at start |
| ProgramModel.Program.ReadSecretFromConsole | Program.cs:86-110 | the key loop returns exactly `ConsoleSpec.ReadSecret`: the edited keys before the first Enter, their echo, and whether an Enter came |
| ProgramModel.Program.SetClientSecret | Program.cs:77-83 | stores the secret read, exactly as `ConsoleSpec.SetClientSecret`, keeping the bot |
| ProgramModel.Program.TwitchBot | Program.cs:44-75 | exactly as `ConsoleSpec.TwitchBot`; an existing bot is the same instance afterwards, a new one is fresh |
| ProgramModel.Program.ProcessLine | Program.cs:25-39 | one pass of the loop, exactly as `ConsoleSpec.ProcessLine` |
| ProgramModel.Program.RunConsoleCommandFlow | Program.cs:14-41 | processes lines exactly as `ConsoleSpec.RunConsole`; an existing bot stays the same instance |

## Left out

- HTTP, JSON and the browser: `HttpClient`, `HttpListener`, `EnsureSuccessStatusCode`, `FormUrlEncodedContent`, `JsonDocument` and `Process.Start` are not executed. Their results arrive as parameters. A missing JSON property or a JSON value of the wrong type is not modelled: the bodies arrive already parsed.
- Console output: the messages `Program` and `TwitchAuth` print are not modelled, except that the ones that matter appear as events of the shell's log.
- Concurrency: `async`/`await`, `Task.Delay` and the fire-and-forget start of the watcher are sequential here. A stop request takes effect at the loop's next test, which is where the code checks it. Two watchers running at once are not modelled; only the overwrite of `_cts` is.
- Time: `DateTime.UtcNow` is a parameter in whole milliseconds, not ticks. `TotalMilliseconds` is a `double` in the code; here it is an integer.
- ExpiryFor: the range check uses the last whole millisecond of `DateTime.MaxValue`, not its exact tick.
- Guid: the nonce is a parameter.
- TwitchBot.cs is not part of this model:
  - a bot is only the credentials it was created with;
  - `ClientIsConnected` is a parameter;
  - how `InitializeAsync` ends is a parameter;
  - `ApplyNewToken` is a `Notified` event that always returns normally. An exception from TwitchLib inside it would come out of the exchange or the refresh after the notification; the model does not capture that.
- TwitchApi.cs is not part of this model. It is a header-setting wrapper with no logic of its own.
- Main: the console loop runs over a finite sequence of lines. The source reads forever; the model stops after the last line given.
- ConsoleSpec.EqualsIgnoreCase: compares ASCII case only. `StringComparer.OrdinalIgnoreCase` also folds non-ASCII letters.
- ConsoleSpec.ToLowerAscii: lowers ASCII letters only. `string.ToLower` uses the current culture.
- ConsoleSpec.IsWhiteSpace: the fixed set of white-space code points of `char.IsWhiteSpace`. Characters beyond the Basic Multilingual Plane are single `char`s here, not surrogate pairs.
- ConsoleSpec.IsControl: the Cc range of `char.IsControl`.
- The `stop` subcommand does nothing in the code, and nothing in the model.
