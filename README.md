# Step-up authentication for the Settings page

This project models the step-up authentication core of a browser-delegated
sign-in demo (ASP.NET Core with OpenID Connect) and proves properties of it in
Dafny.

The Settings page demands the authentication context `c1`:

- A user whose ID token carries `c1` is served. This is checked first on the `acrs` claim and then on the `acr` claim.
- A user whose token lacks `c1` is challenged once. The challenge sends them back to the identity provider with a claims request and `acr_values=c1`. A session flag `StepUpAttempted` records that the challenge happened.
- If the user returns still without the context, the page redirects them to `/AccessDenied` and removes the flag.

The OpenID Connect hooks registered at start-up are modelled too:

- The outbound hook fixes the requested scope and copies `acr_values` from the challenge's property bag.
- The two failure hooks turn a failed sign-in into a redirect, either to `/` or to `/Error?message=<escaped message>`.

Files:

- `wrappers.dfy`: `Option`.
- `text.dfy`: substring search (`string.Contains`) and prefixes.
- `authentication.dfy`: claims and a principal's claim list, with `FindFirst` and case-insensitive type matching. Also the challenge property bag (`AuthenticationProperties.Items`, where `RedirectUri` lives under `.redirect`).
- `escaping.dfy`: `Uri.EscapeDataString`. It is modelled as strict UTF-8 encoding followed by RFC 3986 percent-encoding of every byte outside the unreserved set (section 2.3 of RFC 3986). A decoder is given, and the round trip is proved.
- `step_up.dfy`: the decision of one GET request as a function of the claims, the session store and the page fields (`HandleSettingsGet`), with lemmas on it. The function takes the context id as a parameter; the page fixes it to `"c1"`.
- `settings_page.dfy`: the page as the source writes it. It is a class whose handler sets its public properties step by step and mutates a `Session` object. The handler is proved to compute exactly `HandleSettingsGet`. It is split into the three blocks of the source handler: the context check, the served branch, and the challenge-or-deny branch.
- `oidc_events.dfy`: the protocol message and the failure context as classes, and the three event hooks as methods, each tied to a function that states its effect.
- `step_up_flow.dfy`: sequences of requests within one session. Each request gets a fresh page; the session store carries over. Bounded retry, alternation and "never two challenges in a row" are proved here on a branch-level view of a run (`Decide`), which `RunFollowsDecide` ties to the real handler.

Where the design description and the code disagree, the model follows the code:

- **The served branch does not clear a stale flag.** The design says the satisfied branch clears any leftover attempt flag. The code (Pages/Settings.cshtml.cs:71-90) never touches the session there. After a successful step-up the flag therefore stays "true". A later request of the same session without the context is denied at once, with no new challenge. `HandleSettingsGetDecision` states that the store is unchanged on that branch; `StepUpSucceeds` and `StaleFlagDeniesWithoutChallenge` show the consequence.
- **A malformed `amr` value is not tolerated.** The design says a malformed `amr` claim leaves the method list empty and the page is still served. The code calls `JsonSerializer.Deserialize<string[]>` without a `try` (line 81), so the exception escapes the handler. The model returns `AmrJsonException` in that case. The fields set before the parse (`IsMfaCompleted`, `Email`, `DisplayName`) are kept on the page object.

## Model

| member | source | states |
|---|---|---|
| Authentication.FindFirstSpec | Pages/Settings.cshtml.cs:40 | `FindFirst` is None exactly when no claim has the wanted type (compared ignoring ASCII case); otherwise it is the value of the first claim of that type |
| Authentication.FindFirstIsFirst | Pages/Settings.cshtml.cs:57 | the first claim of a type determines what `FindFirst` returns |
| StepUp.HasRequiredAuthContextIff | Pages/Settings.cshtml.cs:38-68 | the context is satisfied iff the first `acrs` claim carries it or the first `acr` claim carries it; a missing claim never satisfies it |
| StepUp.ClaimsChallengeMentionsContext | Pages/Settings.cshtml.cs:108 | the claims request asks for an essential `acrs` claim and names the required context |
| StepUp.ClaimsChallengeShape | Pages/Settings.cshtml.cs:108 | the claims request is the fixed JSON text with the context as the whole `value` of the essential `acrs` request |
| StepUp.ClaimsChallengeForPage | Pages/Settings.cshtml.cs:108 | for `c1` the claims request is exactly `{"id_token":{"acrs":{"essential":true,"value":"c1"}}}` |
| StepUp.DeniedReasonMentionsContext | Pages/Settings.cshtml.cs:100 | the denial reason names the required context, in single quotes |
| StepUp.StepUpProperties | Pages/Settings.cshtml.cs:110-118 | the challenge's bag returns to `/Settings` and carries the claims request and `acr_values` = the context, and has no other item |
| StepUp.HandleSettingsGetDecision | Pages/Settings.cshtml.cs:71-120 | the branch taken is served iff the context is satisfied, else denied iff the flag is "true", else challenged; the store is kept when served, flagged when challenged, and loses the flag when denied; every challenge and every denial is the one fixed result |
| StepUp.HandleSettingsGetFields | Pages/Settings.cshtml.cs:70-89 | only a served request changes the page: `IsMfaCompleted`, e-mail (falling back to `preferred_username`), display name (falling back to the identity name), methods from a JSON array in `amr`; the parse exception happens iff served with a malformed `amr` |
| StepUp.SessionAfterKeepsFlagBinary | Pages/Settings.cshtml.cs:93-105 | after a challenge or a denial the flag is "true" or absent, and no other session key is touched |
| SettingsPage.Session.GetString | Pages/Settings.cshtml.cs:93 | the stored value for the key, None when it is missing |
| SettingsPage.Session.SetString | Pages/Settings.cshtml.cs:105 | the store afterwards maps the key to the value, and nothing else changes |
| SettingsPage.Session.Remove | Pages/Settings.cshtml.cs:99 | the store afterwards lacks the key, and nothing else changes |
| SettingsPage.Session.Clear | Pages/Logout.cshtml.cs:14 | the store is empty afterwards |
| SettingsPage.SettingsModel.constructor | Pages/Settings.cshtml.cs:20-23 | a fresh page has `IsMfaCompleted` false, no methods, no e-mail, no display name, and requires context `c1` |
| SettingsPage.SettingsModel.OnGetAsync | Pages/Settings.cshtml.cs:25-121 | result, new session store and new page fields are exactly those of `HandleSettingsGet` |
| SettingsPage.SettingsModel.CheckRequiredAuthContext | Pages/Settings.cshtml.cs:38-68 | returns whether the context is satisfied (acrs first, then acr) and sets `IsMfaCompleted` exactly when it is |
| SettingsPage.SettingsModel.ReadUserAttributes | Pages/Settings.cshtml.cs:70-90 | result and page fields are those of the served branch |
| SettingsPage.SettingsModel.ChallengeOrDeny | Pages/Settings.cshtml.cs:92-120 | result and session store are those of the challenge-or-deny branch |
| StepUpFlow.RunFollowsDecide | Pages/Settings.cshtml.cs:92-105 | in a run of requests, each request takes the branch that the decision alone predicts from the flag it inherits, and the store ends the same |
| StepUpFlow.UnsatisfiedDecisionsAlternate | Pages/Settings.cshtml.cs:93-105 | requests that never meet the context, from a store without the flag, alternate challenge and denial, and the store is restored after every denial |
| StepUpFlow.UnsatisfiedCycle | Pages/Settings.cshtml.cs:93-105 | two such requests are a challenge followed by a denial, after which the store is as before |
| StepUpFlow.UnsatisfiedAlternates | Pages/Settings.cshtml.cs:93-120 | the same user without the context gets exactly the challenge on even requests and exactly the denial on odd ones; the store ends as it started after an even count, flagged after an odd count |
| StepUpFlow.FlagHeldUntilDenied | Pages/Settings.cshtml.cs:93-101 | while the flag is "true" no challenge is issued before a denial |
| StepUpFlow.DenialBetweenChallenges | Pages/Settings.cshtml.cs:93-105 | between any two challenges of a session some request was denied |
| StepUpFlow.NoTwoChallengesInARow | Pages/Settings.cshtml.cs:93-120 | for any users, two consecutive requests are never both challenged |
| StepUpFlow.StepUpSucceeds | Pages/Settings.cshtml.cs:38-120 | a challenge followed by a token carrying the context (through `acrs` or `acr`, with any `amr`) serves the next request, or ends in the parse exception when its `amr` is malformed; the flag stays set either way |
| StepUpFlow.StaleFlagDeniesWithoutChallenge | Pages/Settings.cshtml.cs:70-101 | with the flag left set, a request that meets the context (with any `amr`) is served or ends in the parse exception, a later request without the context is then denied with no challenge, and only then is the flag removed |
| StepUpFlow.ChallengeCarriesAcrValues | Program.cs:31-40 | the outbound hook run on the challenge's bag sends `acr_values` = the context and the fixed scope |
| StepUpFlow.ChallengeThenDeny | Pages/Settings.cshtml.cs:92-120 | two fresh page objects sharing one session: the first challenges, the second denies, and the store ends as it began |
| StepUpFlow.LogoutRestartsStepUp | Pages/Logout.cshtml.cs:14 | a logout between two requests without the context drops the flag, so the second request is challenged again, whatever the first one did |
| OidcEvents.OpenIdConnectMessage.SetParameter | Program.cs:39 | a value replaces the parameter; null removes it |
| OidcEvents.OutboundParameters | Program.cs:31-43 | scope is exactly "openid profile email offline_access"; `acr_values` is set iff the bag has the key with a value, removed iff it has the key with null, kept otherwise; every other parameter is unchanged |
| OidcEvents.OnRedirectToIdentityProvider | Program.cs:31-43 | the message's parameters become `OutboundParameters` of the old ones |
| OidcEvents.FailureContext.HandleResponse | Program.cs:49 | the response is marked handled, and nothing else changes |
| OidcEvents.FailureContext.Redirect | Program.cs:50 | status 302 with the given location |
| OidcEvents.ErrorLocation | Program.cs:55 | `/Error?message=` followed by a query-safe text that unescapes back to the message; never the root |
| OidcEvents.RemoteFailureLocation | Program.cs:44-57 | the root iff there is a failure whose message contains "Correlation failed"; otherwise the error page for the message, or for "Authentication failed" when there is no failure |
| OidcEvents.OnRemoteFailure | Program.cs:44-57 | handled, status 302, location `RemoteFailureLocation` |
| OidcEvents.OnAuthenticationFailed | Program.cs:58-63 | handled, status 302, always the error page for the exception's message |
| OidcEvents.CorrelationFailureGoesHome | Program.cs:47-51 | a message starting with "Correlation failed" redirects to `/` |
| OidcEvents.PlainFailureLocation | Program.cs:54-55 | a message of unreserved characters without the marker reaches the error page verbatim (`invalid_grant` gives `/Error?message=invalid_grant`) |
| Escaping.EscapeDataString | Program.cs:55 | the escaped text consists only of unreserved characters and `%`, and is no shorter than the input |
| Escaping.EscapeIsPercentEncodedUtf8 | Program.cs:55 | escaping a string is percent-encoding of its UTF-8 bytes |
| Escaping.EscapeRoundTrip | Program.cs:55 | unescaping the escaped text gives back the original string |
| Escaping.EscapeIdentityIff | Program.cs:55 | escaping leaves a string unchanged iff all its characters are unreserved |
| Escaping.EscapeAppend | Program.cs:55 | escaping distributes over concatenation |
| Escaping.EscapeSpace | Program.cs:55 | a space becomes `%20` |
| Escaping.EscapedHasNoDelimiters | Program.cs:61 | the escaped text never holds a raw `&`, `?`, `#`, `=` or space |
| Escaping.Utf8RoundTrip | Program.cs:55 | strict UTF-8 decoding inverts the encoding |
| Escaping.PercentRoundTrip | Program.cs:55 | percent-decoding inverts percent-encoding of any byte sequence |
| Text.ContainsIff | Program.cs:47 | `Contains` holds iff the substring occurs at some position |

## Left out

- Logging: every `_logger` call in the handler and the hooks, and the claims dump at the start of `OnGetAsync`. Logging has no effect on results.
- `JsonSerializer.Deserialize<string[]>`: it stands as the parameter `parseAmr`, with three outcomes (an array, JSON `null`, malformed). Null elements inside the array are not represented.
- `Authentication.TypeMatches`: `OrdinalIgnoreCase` is modelled by folding ASCII letters only. Non-ASCII case pairs are not folded.
- `Escaping.EscapeDataString`: Dafny strings are sequences of Unicode scalar values, so the lone UTF-16 surrogates a .NET string can contain cannot be represented. Current .NET replaces such a surrogate with U+FFFD (escaped as `%EF%BF%BD`); that replacement is not modelled.
- The context id `c1` is a local constant of `OnGetAsync`. It is modelled as a constant field of the page, set by the constructor, so the handler's proofs hold for any context id.
- How the framework renders a `PageResult`, performs a challenge (building the authorize request, state and nonce, correlation cookies) or follows `RedirectToPage`. A challenge or a redirect is kept as the value the handler returns.
- Session idle timeout, cookie options, distributed cache, token caches, Microsoft Graph, downstream scopes, role policies and the other pages: configuration, not core logic.
- Concurrency: parallel requests in one session. Requests are modelled one after another.
- `async`/`Task`: the handlers complete synchronously.
