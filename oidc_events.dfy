/**
 * The OpenID Connect event hooks registered at start-up: the outbound
 * augmenter run before every redirect to the identity provider, and the two
 * failure hooks that turn a failed sign-in into a browser redirect.
 */
module OidcEvents {
  import opened Wrappers
  import opened Text
  import opened Escaping
  import opened Authentication

  const ScopeParameter := "scope"
  const RequestedScope := "openid profile email offline_access"
  const AcrValuesParameter := "acr_values"
  const CorrelationFailedMarker := "Correlation failed"
  const DefaultFailureMessage := "Authentication failed"
  const RootLocation := "/"
  const ErrorLocationPrefix := "/Error?message="
  /** `HttpResponse.Redirect` issues a temporary redirect. */
  const FoundStatus := 302

  /** The protocol message about to be sent; `Scope` is its "scope" parameter. */
  class OpenIdConnectMessage {
    var parameters: map<string, string>

    constructor (parameters: map<string, string>)
      ensures this.parameters == parameters
    {
      this.parameters := parameters;
    }

    /** `SetParameter`: a null value removes the parameter, any other value replaces it. */
    method SetParameter(name: string, value: Option<string>)
      modifies this
      ensures parameters == if value.Some? then old(parameters)[name := value.value] else old(parameters) - {name}
    {
      if value.Some? {
        parameters := parameters[name := value.value];
      } else {
        parameters := parameters - {name};
      }
    }
  }

  /** The parameters the outbound hook leaves on the message. */
  function OutboundParameters(parameters: map<string, string>, items: map<string, Option<string>>): (r: map<string, string>)
    ensures ScopeParameter in r && r[ScopeParameter] == RequestedScope
    ensures AcrValuesParameter in items ==>
      (AcrValuesParameter in r <==> items[AcrValuesParameter].Some?) &&
      (AcrValuesParameter in r ==> r[AcrValuesParameter] == items[AcrValuesParameter].value)
    ensures AcrValuesParameter !in items ==>
      (AcrValuesParameter in r <==> AcrValuesParameter in parameters) &&
      (AcrValuesParameter in r ==> r[AcrValuesParameter] == parameters[AcrValuesParameter])
    ensures forall k :: k != ScopeParameter && k != AcrValuesParameter ==>
      (k in r <==> k in parameters) && (k in r ==> r[k] == parameters[k])
  {
    var scoped := parameters[ScopeParameter := RequestedScope];
    if AcrValuesParameter !in items then scoped
    else match items[AcrValuesParameter]
      case Some(acrValues) => scoped[AcrValuesParameter := acrValues]
      case None => scoped - {AcrValuesParameter}
  }

  /** `OnRedirectToIdentityProvider`. */
  method OnRedirectToIdentityProvider(message: OpenIdConnectMessage, properties: AuthenticationProperties)
    modifies message
    ensures message.parameters == OutboundParameters(old(message.parameters), properties.items)
  {
    message.SetParameter(ScopeParameter, Some(RequestedScope));
    if AcrValuesParameter in properties.items {
      var acrValues := properties.items[AcrValuesParameter];
      message.SetParameter(AcrValuesParameter, acrValues);
    }
  }

  /** What a failure hook does to the HTTP exchange: whether it took over, and the response it set. */
  class FailureContext {
    var handled: bool
    var statusCode: int
    var location: Option<string>

    constructor ()
      ensures !handled && statusCode == 200 && location == None
    {
      handled, statusCode, location := false, 200, None;
    }

    /** `HandleResponse()`: the framework's own error handling is skipped. */
    method HandleResponse()
      modifies this
      ensures handled && statusCode == old(statusCode) && location == old(location)
    {
      handled := true;
    }

    /** `Response.Redirect(url)`. */
    method Redirect(url: string)
      modifies this
      ensures handled == old(handled) && statusCode == FoundStatus && location == Some(url)
    {
      statusCode, location := FoundStatus, Some(url);
    }
  }

  /** The error page location carries `message` in its query, escaped so that the page reads it back. */
  predicate IsErrorLocationFor(location: string, message: string) {
    StartsWith(location, ErrorLocationPrefix) &&
    AllQuerySafe(location[|ErrorLocationPrefix|..]) &&
    UnescapeDataString(location[|ErrorLocationPrefix|..]) == Some(message)
  }

  predicate AllQuerySafe(s: string) {
    forall i :: 0 <= i < |s| ==> IsUnreserved(s[i]) || s[i] == '%'
  }

  function ErrorLocation(message: string): (r: string)
    ensures IsErrorLocationFor(r, message)
    ensures r != RootLocation
  {
    var r := ErrorLocationPrefix + EscapeDataString(message);
    assert r[..|ErrorLocationPrefix|] == ErrorLocationPrefix;
    assert r[|ErrorLocationPrefix|..] == EscapeDataString(message);
    EscapeRoundTrip(message);
    r
  }

  /** Where a remote failure sends the browser. */
  function RemoteFailureLocation(failure: Option<string>): (r: string)
    ensures r == RootLocation <==> failure.Some? && Contains(failure.value, CorrelationFailedMarker)
    ensures r != RootLocation ==> IsErrorLocationFor(r, failure.GetOr(DefaultFailureMessage))
  {
    if failure.Some? && Contains(failure.value, CorrelationFailedMarker) then RootLocation
    else ErrorLocation(failure.GetOr(DefaultFailureMessage))
  }

  /** `OnRemoteFailure`; `failure` is the failure's message, None when there is no failure object. */
  method OnRemoteFailure(context: FailureContext, failure: Option<string>)
    modifies context
    ensures context.handled && context.statusCode == FoundStatus
    ensures context.location == Some(RemoteFailureLocation(failure))
  {
    if failure.Some? && Contains(failure.value, CorrelationFailedMarker) {
      context.HandleResponse();
      context.Redirect(RootLocation);
      return;
    }
    context.HandleResponse();
    context.Redirect(ErrorLocationPrefix + EscapeDataString(failure.GetOr(DefaultFailureMessage)));
  }

  /** `OnAuthenticationFailed`: always the error page, whatever the exception says. */
  method OnAuthenticationFailed(context: FailureContext, exceptionMessage: string)
    modifies context
    ensures context.handled && context.statusCode == FoundStatus
    ensures context.location == Some(ErrorLocation(exceptionMessage))
  {
    context.HandleResponse();
    context.Redirect(ErrorLocationPrefix + EscapeDataString(exceptionMessage));
  }

  /** A failure whose message begins "Correlation failed" goes back to the root, with no message. */
  lemma CorrelationFailureGoesHome(message: string)
    requires StartsWith(message, CorrelationFailedMarker)
    ensures RemoteFailureLocation(Some(message)) == RootLocation
  {
    StartsWithContains(message, CorrelationFailedMarker);
  }

  /**
   * A message of unreserved characters only that does not mention a correlation
   * failure reaches the error page unchanged (`invalid_grant` gives
   * `/Error?message=invalid_grant`).
   */
  lemma PlainFailureLocation(message: string)
    requires AllUnreserved(message) && !Contains(message, CorrelationFailedMarker)
    ensures RemoteFailureLocation(Some(message)) == ErrorLocationPrefix + message
  {
    EscapeIdentityIff(message);
  }
}
