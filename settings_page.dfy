/**
 * The Settings page as the source writes it: a page object whose handler
 * assigns its public fields step by step and updates the session store in
 * place. `OnGetAsync` is proved to agree with `StepUp.HandleSettingsGet`.
 */
module SettingsPage {
  import opened Wrappers
  import opened Authentication
  import opened StepUp

  /** The server-side session (`ISession`): string keys to string values. */
  class Session {
    var entries: map<string, string>

    constructor ()
      ensures entries == map[]
    {
      entries := map[];
    }

    /** `GetString`: the stored value, or None for a missing key. */
    function GetString(key: string): (r: Option<string>)
      reads this
      ensures r.Some? <==> key in entries
      ensures r.Some? ==> r.value == entries[key]
    {
      if key in entries then Some(entries[key]) else None
    }

    method SetString(key: string, value: string)
      modifies this
      ensures entries == old(entries)[key := value]
    {
      entries := entries[key := value];
    }

    method Remove(key: string)
      modifies this
      ensures entries == old(entries) - {key}
    {
      entries := entries - {key};
    }

    /** `Session.Clear()`, as the logout page does before signing out. */
    method Clear()
      modifies this
      ensures entries == map[]
    {
      entries := map[];
    }
  }

  class SettingsModel {
    /** The authentication context the page demands ("c1"). */
    const requiredAuthContextId: string
    var isMfaCompleted: bool
    var authenticationMethods: seq<string>
    var email: Option<string>
    var displayName: Option<string>

    constructor ()
      ensures requiredAuthContextId == RequiredAuthContextId
      ensures Fields() == InitialFields
    {
      requiredAuthContextId := RequiredAuthContextId;
      isMfaCompleted := false;
      authenticationMethods := [];
      email := None;
      displayName := None;
    }

    function Fields(): PageFields
      reads this
    {
      PageFields(isMfaCompleted, authenticationMethods, email, displayName)
    }

    /**
     * GET /Settings. `parseAmr` stands for `JsonSerializer.Deserialize<string[]>`;
     * a malformed value ends the handler with `AmrJsonException`.
     */
    method OnGetAsync(user: Principal, session: Session, parseAmr: string -> AmrJson) returns (result: ActionResult)
      modifies this, session
      ensures HandleSettingsGet(requiredAuthContextId, user, old(session.entries), old(Fields()), parseAmr) ==
        SettingsResponse(result, session.entries, Fields())
    {
      var hasRequiredAuthContext := CheckRequiredAuthContext(user);
      if hasRequiredAuthContext {
        result := ReadUserAttributes(user, parseAmr);
      } else {
        result := ChallengeOrDeny(session);
      }
    }

    /** The `acrs` claim is consulted first and the `acr` claim only if that fails; a match marks the page. */
    method CheckRequiredAuthContext(user: Principal) returns (hasRequiredAuthContext: bool)
      modifies this
      ensures hasRequiredAuthContext == HasRequiredAuthContext(user.claims, requiredAuthContextId)
      ensures Fields() == if hasRequiredAuthContext then old(Fields()).(isMfaCompleted := true) else old(Fields())
    {
      var acrsClaim := FindFirst(user.claims, "acrs");
      hasRequiredAuthContext := false;
      if acrsClaim.Some? {
        if acrsClaim.value == requiredAuthContextId {
          hasRequiredAuthContext := true;
          isMfaCompleted := true;
        }
      }

      if !hasRequiredAuthContext {
        var acrClaim := FindFirst(user.claims, "acr");
        if acrClaim.Some? {
          if acrClaim.value == requiredAuthContextId {
            hasRequiredAuthContext := true;
            isMfaCompleted := true;
          }
        }
      }
    }

    /** The satisfied branch: e-mail, display name and authentication methods from the claims. */
    method ReadUserAttributes(user: Principal, parseAmr: string -> AmrJson) returns (result: ActionResult)
      requires isMfaCompleted
      modifies this
      ensures (result, Fields()) == ServedPage(user, old(Fields()), parseAmr)
    {
      email := FindFirst(user.claims, "email").OrElse(FindFirst(user.claims, "preferred_username"));
      displayName := FindFirst(user.claims, "name").OrElse(user.identityName);

      var amrClaim := FindFirst(user.claims, "amr");
      if amrClaim.Some? {
        var amrValues := parseAmr(amrClaim.value);
        if amrValues.JsonMalformed? {
          return AmrJsonException;
        }
        if amrValues.JsonArray? {
          authenticationMethods := amrValues.methods;
        }
      }
      return PageResult;
    }

    /** The unsatisfied branch: one automatic challenge, then a denial that clears the flag. */
    method ChallengeOrDeny(session: Session) returns (result: ActionResult)
      modifies session
      ensures (result, session.entries) == StepUpDecision(requiredAuthContextId, old(session.entries))
    {
      var attemptedStepUp := session.GetString(StepUpAttemptedKey);
      if attemptedStepUp == Some(AttemptedValue) {
        session.Remove(StepUpAttemptedKey);
        return RedirectToPageResult(AccessDeniedPage, DeniedReason(requiredAuthContextId));
      }

      session.SetString(StepUpAttemptedKey, AttemptedValue);
      var claimsChallenge := ClaimsChallenge(requiredAuthContextId);
      var properties := AuthenticationProperties(map[
        RedirectUriKey := Some(SettingsPath),
        ClaimsItem := Some(claimsChallenge),
        AcrValuesItem := Some(requiredAuthContextId)]);
      return ChallengeResult(properties, OpenIdConnectScheme);
    }
  }
}
