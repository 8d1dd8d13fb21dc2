/**
 * Sequences of requests to the Settings page within one browser session:
 * every request gets a new page object, while the session store carries the
 * step-up flag from one request to the next.
 */
module StepUpFlow {
  import opened Wrappers
  import opened Authentication
  import opened StepUp
  import opened SettingsPage
  import opened OidcEvents

  datatype Trace = Trace(results: seq<ActionResult>, session: map<string, string>)

  /** The results of the successive requests of `users`, and the session store at the end. */
  function Run(contextId: string, users: seq<Principal>, session: map<string, string>,
               parseAmr: string -> AmrJson): (t: Trace)
    ensures |t.results| == |users|
    decreases |users|
  {
    if users == [] then Trace([], session)
    else
      var first := HandleSettingsGet(contextId, users[0], session, InitialFields, parseAmr);
      var rest := Run(contextId, users[1..], first.session, parseAmr);
      Trace([first.result] + rest.results, rest.session)
  }

  /** The same requests seen only through the branch each one takes. */
  datatype Steps = Steps(branches: seq<Branch>, session: map<string, string>)

  /**
   * The decision alone, for a sequence of requests of which the k-th meets the
   * context exactly when `satisfied[k]` holds.
   */
  function Decide(satisfied: seq<bool>, session: map<string, string>): (s: Steps)
    ensures |s.branches| == |satisfied|
    decreases |satisfied|
  {
    if satisfied == [] then Steps([], session)
    else
      var b := BranchOf(satisfied[0], session);
      var rest := Decide(satisfied[1..], SessionAfter(b, session));
      Steps([b] + rest.branches, rest.session)
  }

  /** Which of the users meet the context. */
  function Satisfaction(contextId: string, users: seq<Principal>): (r: seq<bool>)
    ensures |r| == |users|
    ensures forall k :: 0 <= k < |users| ==> r[k] == HasRequiredAuthContext(users[k].claims, contextId)
  {
    if users == [] then [] else [HasRequiredAuthContext(users[0].claims, contextId)] + Satisfaction(contextId, users[1..])
  }

  /** Each result comes from its branch, and every challenge and every denial is the given one. */
  predicate Follows(challenge: ActionResult, denial: ActionResult, results: seq<ActionResult>, branches: seq<Branch>) {
    |results| == |branches| &&
    forall k :: 0 <= k < |results| ==>
      Taken(results[k]) == branches[k] &&
      (results[k].ChallengeResult? ==> results[k] == challenge) &&
      (results[k].RedirectToPageResult? ==> results[k] == denial)
  }

  lemma FollowsCons(challenge: ActionResult, denial: ActionResult, result: ActionResult,
                    results: seq<ActionResult>, branches: seq<Branch>)
    requires result.ChallengeResult? ==> result == challenge
    requires result.RedirectToPageResult? ==> result == denial
    requires Follows(challenge, denial, results, branches)
    ensures Follows(challenge, denial, [result] + results, [Taken(result)] + branches)
  {
    forall k | 1 <= k < |results| + 1
      ensures ([result] + results)[k] == results[k - 1] && ([Taken(result)] + branches)[k] == branches[k - 1]
    {
    }
  }

  /**
   * Each request of a run takes the branch the decision alone predicts, with
   * the handler's one challenge or denial, and the store ends the same.
   */
  lemma {:induction false} RunFollowsDecide(contextId: string, users: seq<Principal>, session: map<string, string>,
                                            parseAmr: string -> AmrJson)
    ensures Run(contextId, users, session, parseAmr).session == Decide(Satisfaction(contextId, users), session).session
    ensures Follows(StepUpChallenge(contextId), AccessDenied(contextId), Run(contextId, users, session, parseAmr).results,
                    Decide(Satisfaction(contextId, users), session).branches)
    decreases |users|
  {
    if users != [] {
      var first := HandleSettingsGet(contextId, users[0], session, InitialFields, parseAmr);
      HandleSettingsGetDecision(contextId, users[0], session, InitialFields, parseAmr);
      RunFollowsDecide(contextId, users[1..], first.session, parseAmr);
      var rest := Run(contextId, users[1..], first.session, parseAmr);
      var satisfied := Satisfaction(contextId, users);
      assert satisfied[1..] == Satisfaction(contextId, users[1..]);
      var restSteps := Decide(satisfied[1..], first.session);
      assert Run(contextId, users, session, parseAmr).results == [first.result] + rest.results;
      assert Decide(satisfied, session).branches == [Taken(first.result)] + restSteps.branches;
      FollowsCons(StepUpChallenge(contextId), AccessDenied(contextId), first.result, rest.results, restSteps.branches);
    }
  }

  predicate Unsatisfied(contextId: string, user: Principal) {
    !HasRequiredAuthContext(user.claims, contextId)
  }

  function Repeat(user: Principal, n: nat): (r: seq<Principal>)
    ensures |r| == n && forall i :: 0 <= i < n ==> r[i] == user
  {
    if n == 0 then [] else [user] + Repeat(user, n - 1)
  }

  /** First attempt on every even request, exhausted retry on every odd one. */
  predicate Alternates(branches: seq<Branch>) {
    forall k :: 0 <= k < |branches| ==> branches[k] == if k % 2 == 0 then FirstAttempt else RetryExhausted
  }

  /**
   * Branch-level bounded retry: requests that never meet the context, from a
   * store without the flag, alternate first attempt and exhausted retry, and
   * after each denial the store is back where it started.
   */
  lemma {:induction false} UnsatisfiedDecisionsAlternate(satisfied: seq<bool>, session: map<string, string>)
    requires forall k :: 0 <= k < |satisfied| ==> !satisfied[k]
    requires StepUpAttemptedKey !in session
    ensures Alternates(Decide(satisfied, session).branches)
    ensures Decide(satisfied, session).session ==
      if |satisfied| % 2 == 0 then session else session[StepUpAttemptedKey := AttemptedValue]
    decreases |satisfied|
  {
    if |satisfied| >= 2 {
      UnsatisfiedCycle(satisfied, session);
      UnsatisfiedDecisionsAlternate(satisfied[2..], session);
      var s := Decide(satisfied, session).branches;
      var s2 := Decide(satisfied[2..], session).branches;
      forall k | 2 <= k < |satisfied| ensures s[k] == s2[k - 2] { }
    }
  }

  /** Two requests without the context, from a store without the flag: challenge, denial, store restored. */
  lemma UnsatisfiedCycle(satisfied: seq<bool>, session: map<string, string>)
    requires |satisfied| >= 2 && !satisfied[0] && !satisfied[1]
    requires StepUpAttemptedKey !in session
    ensures Decide(satisfied, session).branches == [FirstAttempt, RetryExhausted] + Decide(satisfied[2..], session).branches
    ensures Decide(satisfied, session).session == Decide(satisfied[2..], session).session
  {
    var flagged := session[StepUpAttemptedKey := AttemptedValue];
    assert flagged - {StepUpAttemptedKey} == session;
    assert satisfied[1..][1..] == satisfied[2..];
  }

  /**
   * Bounded retry on the page itself: the same user without the context is
   * challenged on every even request and denied on every odd one.
   */
  lemma UnsatisfiedAlternates(contextId: string, user: Principal, n: nat, session: map<string, string>,
                              parseAmr: string -> AmrJson)
    requires Unsatisfied(contextId, user) && StepUpAttemptedKey !in session
    ensures forall k :: 0 <= k < n ==>
      Run(contextId, Repeat(user, n), session, parseAmr).results[k] ==
        if k % 2 == 0 then StepUpChallenge(contextId) else AccessDenied(contextId)
    ensures Run(contextId, Repeat(user, n), session, parseAmr).session ==
      if n % 2 == 0 then session else session[StepUpAttemptedKey := AttemptedValue]
  {
    UnsatisfiedDecisionsAlternate(Satisfaction(contextId, Repeat(user, n)), session);
    RunFollowsDecide(contextId, Repeat(user, n), session, parseAmr);
  }

  /** Some request strictly between positions `i` and `j` took the denial branch. */
  predicate DeniedBetween(branches: seq<Branch>, i: int, j: int) {
    exists m :: i < m < j && 0 <= m < |branches| && branches[m] == RetryExhausted
  }

  lemma DeniedBetweenShift(branches: seq<Branch>, head: Branch, i: int, j: int)
    requires DeniedBetween(branches, i, j)
    ensures DeniedBetween([head] + branches, i + 1, j + 1)
  {
    var m :| i < m < j && 0 <= m < |branches| && branches[m] == RetryExhausted;
    assert ([head] + branches)[m + 1] == branches[m];
  }

  /** Every first attempt in `branches` comes after a denial. */
  predicate NoChallengeBeforeDenial(branches: seq<Branch>) {
    forall j :: 0 <= j < |branches| && branches[j] == FirstAttempt ==> DeniedBetween(branches, -1, j)
  }

  /** Once the flag holds "true", no challenge is issued before a denial has cleared it. */
  lemma {:induction false} FlagHeldUntilDenied(satisfied: seq<bool>, session: map<string, string>)
    requires AttemptRecorded(session)
    ensures NoChallengeBeforeDenial(Decide(satisfied, session).branches)
    decreases |satisfied|
  {
    if satisfied != [] {
      var b := BranchOf(satisfied[0], session);
      var s := Decide(satisfied, session).branches;
      var rest := Decide(satisfied[1..], SessionAfter(b, session)).branches;
      assert s == [b] + rest;
      if b != RetryExhausted {
        assert b == Satisfied && SessionAfter(b, session) == session;
        FlagHeldUntilDenied(satisfied[1..], session);
        forall j | 0 <= j < |s| && s[j] == FirstAttempt
          ensures DeniedBetween(s, -1, j)
        {
          assert rest[j - 1] == FirstAttempt;
          DeniedBetweenShift(rest, b, -1, j - 1);
        }
      } else {
        assert s[0] == RetryExhausted;
      }
    }
  }

  /** Between any two first attempts in `branches` there is a denial. */
  predicate ChallengesSeparated(branches: seq<Branch>) {
    forall i, j :: 0 <= i < j < |branches| && branches[i] == FirstAttempt && branches[j] == FirstAttempt ==>
      DeniedBetween(branches, i, j)
  }

  /**
   * At most one automatic challenge per cycle: between any two first attempts
   * of a session some request was denied.
   */
  lemma {:induction false} DenialBetweenChallenges(satisfied: seq<bool>, session: map<string, string>)
    ensures ChallengesSeparated(Decide(satisfied, session).branches)
    decreases |satisfied|
  {
    if satisfied != [] {
      var b := BranchOf(satisfied[0], session);
      var s := Decide(satisfied, session).branches;
      var rest := Decide(satisfied[1..], SessionAfter(b, session)).branches;
      assert s == [b] + rest;
      DenialBetweenChallenges(satisfied[1..], SessionAfter(b, session));
      if b == FirstAttempt {
        FlagHeldUntilDenied(satisfied[1..], SessionAfter(b, session));
      }
      forall i, j | 0 <= i < j < |s| && s[i] == FirstAttempt && s[j] == FirstAttempt
        ensures DeniedBetween(s, i, j)
      {
        assert rest[j - 1] == FirstAttempt;
        if i == 0 {
          DeniedBetweenShift(rest, b, -1, j - 1);
        } else {
          assert rest[i - 1] == FirstAttempt;
          DeniedBetweenShift(rest, b, i - 1, j - 1);
        }
      }
    }
  }

  /** Separated first attempts are never adjacent. */
  lemma NoAdjacentFirstAttempts(branches: seq<Branch>)
    requires ChallengesSeparated(branches)
    ensures forall k :: 0 <= k < |branches| - 1 ==> !(branches[k] == FirstAttempt && branches[k + 1] == FirstAttempt)
  {
  }

  /** Whatever the users, the page never challenges on two consecutive requests. */
  lemma {:induction false} NoTwoChallengesInARow(contextId: string, users: seq<Principal>, session: map<string, string>,
                                              parseAmr: string -> AmrJson)
    ensures forall k :: 0 <= k < |users| - 1 ==>
      !(Run(contextId, users, session, parseAmr).results[k].ChallengeResult? &&
        Run(contextId, users, session, parseAmr).results[k + 1].ChallengeResult?)
  {
    RunFollowsDecide(contextId, users, session, parseAmr);
    DenialBetweenChallenges(Satisfaction(contextId, users), session);
    NoAdjacentFirstAttempts(Decide(Satisfaction(contextId, users), session).branches);
  }

  /** The served request's `amr` claim is present and the parser rejects it. */
  predicate AmrMalformed(user: Principal, parseAmr: string -> AmrJson) {
    FindFirst(user.claims, "amr").Some? && parseAmr(FindFirst(user.claims, "amr").value).JsonMalformed?
  }

  /**
   * A successful step-up: after the challenge the provider returns a token
   * carrying the context (through `acrs` or `acr`), and the next request is
   * served, or ends with the parser's exception when its `amr` is malformed.
   * Either way the flag stays set.
   */
  lemma StepUpSucceeds(contextId: string, before: Principal, after: Principal, session: map<string, string>,
                       parseAmr: string -> AmrJson)
    requires Unsatisfied(contextId, before) && !AttemptRecorded(session)
    requires HasRequiredAuthContext(after.claims, contextId)
    ensures Run(contextId, [before, after], session, parseAmr).results ==
      [StepUpChallenge(contextId), if AmrMalformed(after, parseAmr) then AmrJsonException else PageResult]
    ensures Run(contextId, [before, after], session, parseAmr).session ==
      session[StepUpAttemptedKey := AttemptedValue]
  {
    var flagged := session[StepUpAttemptedKey := AttemptedValue];
    assert [after][1..] == [];
    assert Run(contextId, [after], flagged, parseAmr).results ==
      [if AmrMalformed(after, parseAmr) then AmrJsonException else PageResult];
    assert [before, after][1..] == [after];
  }

  /**
   * The served request leaves the flag in place (as after `StepUpSucceeds`), so
   * a later request of the same session without the context is denied at once,
   * with no fresh challenge, and only that denial clears the flag.
   */
  lemma StaleFlagDeniesWithoutChallenge(contextId: string, served: Principal, later: Principal,
                                        session: map<string, string>, parseAmr: string -> AmrJson)
    requires AttemptRecorded(session)
    requires HasRequiredAuthContext(served.claims, contextId)
    requires Unsatisfied(contextId, later)
    ensures Run(contextId, [served, later], session, parseAmr).results ==
      [if AmrMalformed(served, parseAmr) then AmrJsonException else PageResult, AccessDenied(contextId)]
    ensures Run(contextId, [served, later], session, parseAmr).session == session - {StepUpAttemptedKey}
  {
    assert [later][1..] == [];
    assert Run(contextId, [later], session, parseAmr) == Trace([AccessDenied(contextId)], session - {StepUpAttemptedKey});
    assert [served, later][1..] == [later];
  }

  /**
   * The challenge reaches the provider: running the outbound hook on the
   * challenge's properties requests the context through `acr_values` and
   * asks for the fixed scope.
   */
  lemma ChallengeCarriesAcrValues(contextId: string, parameters: map<string, string>)
    ensures var sent := OutboundParameters(parameters, StepUpProperties(contextId).items);
      AcrValuesParameter in sent && sent[AcrValuesParameter] == contextId &&
      sent[ScopeParameter] == RequestedScope
  {
  }

  /**
   * The imperative page and session objects through one cycle for a user
   * without the context: a fresh page challenges and sets the flag, the next
   * fresh page denies and removes it, and the store is as it was.
   */
  method ChallengeThenDeny(user: Principal, session: Session, parseAmr: string -> AmrJson)
    returns (first: ActionResult, second: ActionResult)
    requires Unsatisfied(RequiredAuthContextId, user) && StepUpAttemptedKey !in session.entries
    modifies session
    ensures first == StepUpChallenge(RequiredAuthContextId)
    ensures second == AccessDenied(RequiredAuthContextId)
    ensures session.entries == old(session.entries)
  {
    var page := new SettingsModel();
    first := page.OnGetAsync(user, session, parseAmr);
    HandleSettingsGetDecision(RequiredAuthContextId, user, old(session.entries), InitialFields, parseAmr);
    var retry := new SettingsModel();
    ghost var flagged := session.entries;
    second := retry.OnGetAsync(user, session, parseAmr);
    HandleSettingsGetDecision(RequiredAuthContextId, user, flagged, InitialFields, parseAmr);
    assert session.entries == old(session.entries)[StepUpAttemptedKey := AttemptedValue] - {StepUpAttemptedKey};
  }

  /**
   * Logging out clears the store (Logout.cshtml.cs:14), so it also drops the
   * flag: whatever the first request did, the next one for a user without
   * the context is challenged afresh instead of denied.
   */
  method LogoutRestartsStepUp(user: Principal, session: Session, parseAmr: string -> AmrJson)
    returns (first: ActionResult, second: ActionResult)
    requires Unsatisfied(RequiredAuthContextId, user)
    modifies session
    ensures first == StepUpDecision(RequiredAuthContextId, old(session.entries)).0
    ensures second == StepUpChallenge(RequiredAuthContextId)
    ensures session.entries == map[StepUpAttemptedKey := AttemptedValue]
  {
    var page := new SettingsModel();
    first := page.OnGetAsync(user, session, parseAmr);
    session.Clear();
    var next := new SettingsModel();
    second := next.OnGetAsync(user, session, parseAmr);
    assert map[][StepUpAttemptedKey := AttemptedValue] == map[StepUpAttemptedKey := AttemptedValue];
  }
}
