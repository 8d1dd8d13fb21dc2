/**
 * The framework values the core reads and builds: the claims of the signed-in
 * principal (System.Security.Claims) and the property bag of an authentication
 * challenge (Microsoft.AspNetCore.Authentication.AuthenticationProperties).
 */
module Authentication {
  import opened Wrappers

  /** One claim: its type (for example "acrs") and its string value. */
  datatype Claim = Claim(claimType: string, value: string)

  /**
   * The signed-in user: the claims of all its identities, in the order
   * `ClaimsPrincipal.FindFirst` visits them, and the primary identity's
   * `Name` (None when there is no identity or no name).
   */
  datatype Principal = Principal(claims: seq<Claim>, identityName: Option<string>)

  /** ASCII upper-casing of one character; other characters are kept. */
  function AsciiUpper(c: char): (u: char)
    ensures 'a' <= c <= 'z' ==> u as int == c as int - 32
    ensures !('a' <= c <= 'z') ==> u == c
  {
    if 'a' <= c <= 'z' then (c as int - 32) as char else c
  }

  /**
   * Claim types are compared ignoring case (`StringComparison.OrdinalIgnoreCase`);
   * only the ASCII letters are folded here.
   */
  predicate TypeMatches(claimType: string, wanted: string) {
    |claimType| == |wanted| &&
    forall i :: 0 <= i < |claimType| ==> AsciiUpper(claimType[i]) == AsciiUpper(wanted[i])
  }

  /** Position `i` holds the first claim of type `wanted`. */
  predicate IsFirstMatch(claims: seq<Claim>, wanted: string, i: int) {
    0 <= i < |claims| && TypeMatches(claims[i].claimType, wanted) &&
    forall j :: 0 <= j < i ==> !TypeMatches(claims[j].claimType, wanted)
  }

  /** `User.FindFirst(wanted)?.Value`: the value of the first claim of that type, if any. */
  function FindFirst(claims: seq<Claim>, wanted: string): Option<string>
  {
    if claims == [] then None
    else if TypeMatches(claims[0].claimType, wanted) then Some(claims[0].value)
    else FindFirst(claims[1..], wanted)
  }

  /** No value exactly when no claim has the type; otherwise the value of the first such claim. */
  lemma {:induction false} FindFirstSpec(claims: seq<Claim>, wanted: string)
    ensures var r := FindFirst(claims, wanted);
      (r.None? <==> forall i :: 0 <= i < |claims| ==> !TypeMatches(claims[i].claimType, wanted)) &&
      (r.Some? ==> exists i :: IsFirstMatch(claims, wanted, i) && claims[i].value == r.value)
  {
    if claims == [] {
    } else if TypeMatches(claims[0].claimType, wanted) {
      assert IsFirstMatch(claims, wanted, 0);
    } else {
      FindFirstSpec(claims[1..], wanted);
      var r := FindFirst(claims[1..], wanted);
      assert forall i :: 1 <= i < |claims| ==> claims[i] == claims[1..][i - 1];
      if r.Some? {
        var i :| IsFirstMatch(claims[1..], wanted, i) && claims[1..][i].value == r.value;
        assert IsFirstMatch(claims, wanted, i + 1);
      }
    }
  }

  /** A first match is unique, so `FindFirst` is determined by the claim list. */
  lemma FindFirstIsFirst(claims: seq<Claim>, wanted: string, i: int)
    requires IsFirstMatch(claims, wanted, i)
    ensures FindFirst(claims, wanted) == Some(claims[i].value)
  {
    FindFirstSpec(claims, wanted);
    var r := FindFirst(claims, wanted);
    var k :| IsFirstMatch(claims, wanted, k) && claims[k].value == r.value;
    assert !(k < i) && !(i < k);
  }

  /** Key under which ASP.NET Core keeps `AuthenticationProperties.RedirectUri` in `Items`. */
  const RedirectUriKey := ".redirect"

  /** The property bag of a challenge: `Items`, whose values are nullable strings. */
  datatype AuthenticationProperties = AuthenticationProperties(items: map<string, Option<string>>) {

    function RedirectUri(): Option<string> {
      if RedirectUriKey in items then items[RedirectUriKey] else None
    }
  }
}
