/**
 * The step-up decision of the Settings page (`SettingsModel.OnGetAsync`) as a
 * function of one request: the user's claims, the session store and the page
 * fields before the request, giving the action result, the session store and
 * the page fields afterwards. The imperative handler in SettingsPage is proved
 * to compute exactly this.
 */
module StepUp {
  import opened Wrappers
  import opened Text
  import opened Authentication

  const RequiredAuthContextId := "c1"
  const StepUpAttemptedKey := "StepUpAttempted"
  const AttemptedValue := "true"
  const SettingsPath := "/Settings"
  const AccessDeniedPage := "/AccessDenied"
  /** `OpenIdConnectDefaults.AuthenticationScheme`. */
  const OpenIdConnectScheme := "OpenIdConnect"
  const ClaimsItem := "claims"
  const AcrValuesItem := "acr_values"

  /** The outcome of `JsonSerializer.Deserialize<string[]>` on the `amr` claim's value. */
  datatype AmrJson = JsonArray(methods: seq<string>) | JsonNull | JsonMalformed

  datatype ActionResult =
    | PageResult
    | ChallengeResult(properties: AuthenticationProperties, scheme: string)
    | RedirectToPageResult(pageName: string, reason: string)
      /** The `JsonException` thrown while parsing `amr`, which the handler does not catch. */
    | AmrJsonException

  /** The page's public properties. */
  datatype PageFields = PageFields(
    isMfaCompleted: bool,
    authenticationMethods: seq<string>,
    email: Option<string>,
    displayName: Option<string>)

  /** The fields of a freshly constructed page. */
  const InitialFields := PageFields(false, [], None, None)

  datatype SettingsResponse = SettingsResponse(
    result: ActionResult,
    session: map<string, string>,
    fields: PageFields)

  /** The context is met through the first `acrs` claim, or else through the first `acr` claim. */
  predicate HasRequiredAuthContext(claims: seq<Claim>, contextId: string) {
    FindFirst(claims, "acrs") == Some(contextId) || FindFirst(claims, "acr") == Some(contextId)
  }

  /**
   * Reference reading of the check: the first claim of type `acrs` carries the
   * context, or the first claim of type `acr` does. A missing claim never satisfies it.
   */
  lemma HasRequiredAuthContextIff(claims: seq<Claim>, contextId: string)
    ensures HasRequiredAuthContext(claims, contextId) <==>
      (exists i :: IsFirstMatch(claims, "acrs", i) && claims[i].value == contextId) ||
      (exists i :: IsFirstMatch(claims, "acr", i) && claims[i].value == contextId)
  {
    FindFirstSpec(claims, "acrs");
    FindFirstSpec(claims, "acr");
    if exists i :: IsFirstMatch(claims, "acrs", i) && claims[i].value == contextId {
      var i :| IsFirstMatch(claims, "acrs", i) && claims[i].value == contextId;
      FindFirstIsFirst(claims, "acrs", i);
    }
    if exists i :: IsFirstMatch(claims, "acr", i) && claims[i].value == contextId {
      var i :| IsFirstMatch(claims, "acr", i) && claims[i].value == contextId;
      FindFirstIsFirst(claims, "acr", i);
    }
  }

  /** The session records an earlier challenge only when the flag's value is exactly "true". */
  predicate AttemptRecorded(session: map<string, string>) {
    StepUpAttemptedKey in session && session[StepUpAttemptedKey] == AttemptedValue
  }

  /**
   * The claims request the handler interpolates: an essential `acrs` claim of
   * the ID token whose value is the required context.
   */
  function ClaimsChallenge(contextId: string): string {
    "{\"id_token\":{" + "\"acrs\"" + ":{" + "\"essential\":true" + ",\"value\":\"" + contextId + "\"}}}"
  }

  /** The claims request asks for an essential `acrs` claim naming the context. */
  lemma ClaimsChallengeMentionsContext(contextId: string)
    ensures Contains(ClaimsChallenge(contextId), "\"acrs\"")
    ensures Contains(ClaimsChallenge(contextId), "\"essential\":true")
    ensures Contains(ClaimsChallenge(contextId), contextId)
  {
    var open, acrs, essential := "{\"id_token\":{", "\"acrs\"", "\"essential\":true";
    var valueKey, close := ",\"value\":\"", "\"}}}";
    var r := ClaimsChallenge(contextId);
    ContainsInfix(open, acrs, ":{" + essential + valueKey + contextId + close);
    assert open + acrs + (":{" + essential + valueKey + contextId + close) == r;
    ContainsInfix(open + acrs + ":{", essential, valueKey + contextId + close);
    assert open + acrs + ":{" + essential + (valueKey + contextId + close) == r;
    ContainsInfix(open + acrs + ":{" + essential + valueKey, contextId, close);
  }

  /** The context is the whole `value` of the essential `acrs` request, and nothing follows it but the closing braces. */
  lemma ClaimsChallengeShape(contextId: string)
    ensures ClaimsChallenge(contextId) ==
      "{\"id_token\":{\"acrs\":{\"essential\":true,\"value\":\"" + contextId + "\"}}}"
  {
    assert "{\"id_token\":{" + "\"acrs\"" + ":{" == "{\"id_token\":{\"acrs\":{";
    assert "{\"id_token\":{\"acrs\":{" + "\"essential\":true" + ",\"value\":\"" ==
      "{\"id_token\":{\"acrs\":{\"essential\":true,\"value\":\"";
  }

  /** For the page's context the claims request is exactly the payload the handler sends. */
  lemma ClaimsChallengeForPage()
    ensures ClaimsChallenge(RequiredAuthContextId) ==
      "{\"id_token\":{\"acrs\":{\"essential\":true,\"value\":\"c1\"}}}"
  {
    ClaimsChallengeShape(RequiredAuthContextId);
  }

  /** The reason the denial carries, as the handler interpolates it. */
  function DeniedReason(contextId: string): string {
    "Authentication context " + ("'" + contextId + "'") + " requirement not satisfied. MFA may not be configured or policy not applied."
  }

  /** The reason names the context, quoted. */
  lemma DeniedReasonMentionsContext(contextId: string)
    ensures Contains(DeniedReason(contextId), "'" + contextId + "'")
  {
    ContainsInfix("Authentication context ", "'" + contextId + "'",
      " requirement not satisfied. MFA may not be configured or policy not applied.");
  }

  /** The properties of the step-up challenge: return to Settings, with the claims request and the raw context. */
  function StepUpProperties(contextId: string): (p: AuthenticationProperties)
    ensures p.RedirectUri() == Some(SettingsPath)
    ensures ClaimsItem in p.items && p.items[ClaimsItem] == Some(ClaimsChallenge(contextId))
    ensures AcrValuesItem in p.items && p.items[AcrValuesItem] == Some(contextId)
    ensures p.items.Keys == {RedirectUriKey, ClaimsItem, AcrValuesItem}
  {
    AuthenticationProperties(map[
      RedirectUriKey := Some(SettingsPath),
      ClaimsItem := Some(ClaimsChallenge(contextId)),
      AcrValuesItem := Some(contextId)])
  }

  /** The challenge of the first attempt, through the OpenID Connect scheme. */
  function StepUpChallenge(contextId: string): ActionResult {
    ChallengeResult(StepUpProperties(contextId), OpenIdConnectScheme)
  }

  /** The redirect to the access-denied page once the retry is spent. */
  function AccessDenied(contextId: string): ActionResult {
    RedirectToPageResult(AccessDeniedPage, DeniedReason(contextId))
  }

  /** The page fields after the satisfied branch has read the user's attributes, before `amr` is parsed. */
  function UserAttributes(user: Principal, fields: PageFields): PageFields {
    fields.(
      isMfaCompleted := true,
      email := FindFirst(user.claims, "email").OrElse(FindFirst(user.claims, "preferred_username")),
      displayName := FindFirst(user.claims, "name").OrElse(user.identityName))
  }

  /** The three branches of the decision, in the order the handler tries them. */
  datatype Branch = Satisfied | FirstAttempt | RetryExhausted

  function BranchOf(satisfied: bool, session: map<string, string>): Branch {
    if satisfied then Satisfied
    else if AttemptRecorded(session) then RetryExhausted
    else FirstAttempt
  }

  /** The session store after a branch: kept, flagged, or with the flag removed. */
  function SessionAfter(branch: Branch, session: map<string, string>): map<string, string> {
    match branch
    case Satisfied => session
    case FirstAttempt => session[StepUpAttemptedKey := AttemptedValue]
    case RetryExhausted => session - {StepUpAttemptedKey}
  }

  /** The branch an action result comes from. */
  function Taken(result: ActionResult): Branch {
    if result.ChallengeResult? then FirstAttempt
    else if result.RedirectToPageResult? then RetryExhausted
    else Satisfied
  }

  /**
   * The satisfied branch: the page is filled in from the claims and served.
   * A malformed `amr` value ends the request with the parser's exception; a
   * JSON `null` leaves the method list as it was.
   */
  function ServedPage(user: Principal, fields: PageFields, parseAmr: string -> AmrJson): (ActionResult, PageFields) {
    var attributes := UserAttributes(user, fields);
    var amr := FindFirst(user.claims, "amr");
    if amr.None? then (PageResult, attributes)
    else match parseAmr(amr.value)
      case JsonMalformed => (AmrJsonException, attributes)
      case JsonNull => (PageResult, attributes)
      case JsonArray(methods) => (PageResult, attributes.(authenticationMethods := methods))
  }

  /** The unsatisfied branch: deny when the flag is already set, otherwise set it and challenge. */
  function StepUpDecision(contextId: string, session: map<string, string>): (ActionResult, map<string, string>) {
    if AttemptRecorded(session) then (AccessDenied(contextId), session - {StepUpAttemptedKey})
    else (StepUpChallenge(contextId), session[StepUpAttemptedKey := AttemptedValue])
  }

  /** The whole of one GET request to the Settings page. */
  function HandleSettingsGet(contextId: string, user: Principal, session: map<string, string>, fields: PageFields,
                             parseAmr: string -> AmrJson): SettingsResponse
  {
    if HasRequiredAuthContext(user.claims, contextId) then
      var (result, page) := ServedPage(user, fields, parseAmr);
      SettingsResponse(result, session, page)
    else
      var (result, after) := StepUpDecision(contextId, session);
      SettingsResponse(result, after, fields)
  }

  /**
   * The three-way decision: served when the context is met, otherwise a
   * challenge that sets the flag or, when the flag is already "true", a denial
   * that removes it. A served request leaves the store as it was, stale flag
   * included.
   */
  lemma HandleSettingsGetDecision(contextId: string, user: Principal, session: map<string, string>,
                                  fields: PageFields, parseAmr: string -> AmrJson)
    ensures var r := HandleSettingsGet(contextId, user, session, fields, parseAmr);
      Taken(r.result) == BranchOf(HasRequiredAuthContext(user.claims, contextId), session) &&
      r.session == SessionAfter(Taken(r.result), session) &&
      (r.result.RedirectToPageResult? ==> r.result == AccessDenied(contextId)) &&
      (r.result.ChallengeResult? ==> r.result == StepUpChallenge(contextId))
  {
  }

  /**
   * Only the served request touches the page: it is marked MFA-completed and
   * takes its e-mail, display name and methods from the claims, and only there
   * can parsing `amr` throw.
   */
  lemma HandleSettingsGetFields(contextId: string, user: Principal, session: map<string, string>,
                                fields: PageFields, parseAmr: string -> AmrJson)
    ensures var r := HandleSettingsGet(contextId, user, session, fields, parseAmr);
      var amr := FindFirst(user.claims, "amr");
      (!HasRequiredAuthContext(user.claims, contextId) ==> r.fields == fields) &&
      (HasRequiredAuthContext(user.claims, contextId) ==>
        r.fields.isMfaCompleted &&
        r.fields.email == FindFirst(user.claims, "email").OrElse(FindFirst(user.claims, "preferred_username")) &&
        r.fields.displayName == FindFirst(user.claims, "name").OrElse(user.identityName)) &&
      (r.result.AmrJsonException? <==>
        HasRequiredAuthContext(user.claims, contextId) && amr.Some? && parseAmr(amr.value).JsonMalformed?) &&
      r.fields.authenticationMethods ==
        (if HasRequiredAuthContext(user.claims, contextId) && amr.Some? && parseAmr(amr.value).JsonArray?
         then parseAmr(amr.value).methods
         else fields.authenticationMethods)
  {
  }

  /**
   * The flag stays binary: a branch other than Satisfied leaves it "true" or
   * absent, and no branch touches any other key of the store.
   */
  lemma SessionAfterKeepsFlagBinary(branch: Branch, session: map<string, string>)
    ensures var after := SessionAfter(branch, session);
      (branch != Satisfied ==> StepUpAttemptedKey !in after || after[StepUpAttemptedKey] == AttemptedValue) &&
      after.Keys - {StepUpAttemptedKey} == session.Keys - {StepUpAttemptedKey} &&
      (forall k :: k in after && k != StepUpAttemptedKey ==> after[k] == session[k])
  {
  }
}
