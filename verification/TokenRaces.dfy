/** Refreshes that overlap in time. A refresh verifies the presented token and loads the user; then
    it revokes the token, and then it issues the successor (backend/internal/service/auth_service.go
    and token_service.go). Nothing locks in between, so here these are three steps. A refresh that is
    given up takes no further step. Every other call is one step. */
module TokenRaces {
  import opened Tokens
  import opened Wrappers

  type SessionId = nat

  /** The refreshes under way, each with the row as it was read: `verified` have not yet revoked it,
      `rotating` have, and have not yet issued its successor. */
  datatype State = State(tokens: seq<Token>, verified: map<SessionId, Token>, rotating: map<SessionId, Token>) {
    predicate Idle(session: SessionId) { session !in verified && session !in rotating }
  }

  datatype Event =
    | Whole(call: Call)
    | Verify(session: SessionId, rawToken: nat, now: Instant)
    | RevokeVerified(session: SessionId, now: Instant)
    | IssueSuccessor(session: SessionId, now: Instant, issueFails: bool)

  function AfterIssue(tokens: seq<Token>, parent: Token, now: Instant, ttl: int, issueFails: bool): seq<Token> {
    if issueFails then tokens else Issue(tokens, parent.userId, parent.familyId, Some(parent.id), now + ttl)
  }

  function Step(s: State, ttl: int, event: Event): State {
    match event
    case Whole(call) => s.(tokens := AfterCall(s.tokens, ttl, call))
    case Verify(session, rawToken, now) =>
      if !s.Idle(session) then s
      else
        (match VerifyResult(s.tokens, rawToken, now)
         case Success(token) => s.(verified := s.verified[session := token])
         case Failure(_) => s.(tokens := AfterVerify(s.tokens, rawToken, now)))
    case RevokeVerified(session, now) =>
      if session !in s.verified then s
      else
        var token := s.verified[session];
        State(RevokeByID(s.tokens, token.id, Revocation(now, Rotated)), s.verified - {session},
              s.rotating[session := token])
    case IssueSuccessor(session, now, issueFails) =>
      if session !in s.rotating then s
      else s.(tokens := AfterIssue(s.tokens, s.rotating[session], now, ttl, issueFails),
              rotating := s.rotating - {session})
  }

  function RunRaces(s: State, ttl: int, events: seq<Event>): State {
    if events == [] then s else Step(RunRaces(s, ttl, events[..|events| - 1]), ttl, events[|events| - 1])
  }

  const NOTHING_ISSUED := State([], map[], map[])

  /** The state before event k. */
  function At(ttl: int, events: seq<Event>, k: nat): State
    requires k <= |events|
  {
    RunRaces(NOTHING_ISSUED, ttl, events[..k])
  }

  lemma NextState(ttl: int, events: seq<Event>, k: nat)
    requires k < |events|
    ensures At(ttl, events, k + 1) == Step(At(ttl, events, k), ttl, events[k])
  {
    assert events[..k + 1][..k] == events[..k];
  }

  /** A refresh that nothing interrupts does what the one-step refresh does. */
  lemma UninterruptedIsAtomic(s: State, ttl: int, session: SessionId, rawToken: nat, now: Instant, issueFails: bool)
    requires s.Idle(session)
    ensures var revoked := Step(Step(s, ttl, Verify(session, rawToken, now)), ttl, RevokeVerified(session, now));
            Step(revoked, ttl, IssueSuccessor(session, now, issueFails))
            == Step(s, ttl, Whole(Refresh(rawToken, now, true, issueFails)))
  {
    var result := VerifyResult(s.tokens, rawToken, now);
    if result.Success? {
      assert s.verified[session := result.value] - {session} == s.verified;
      assert s.rotating[session := result.value] - {session} == s.rotating;
    }
  }

  // ---- what every interleaving keeps ------------------------------------------------------------------

  predicate Numbered(tokens: seq<Token>) {
    forall i :: 0 <= i < |tokens| ==> tokens[i].id == i && tokens[i].familyId <= i
  }

  /** The token is still stored under its id, with its user and family. */
  predicate Stored(tokens: seq<Token>, token: Token) {
    && token.id < |tokens|
    && tokens[token.id].userId == token.userId && tokens[token.id].familyId == token.familyId
  }

  predicate Retired(tokens: seq<Token>, token: Token) {
    Stored(tokens, token) && tokens[token.id].revoked.Some?
  }

  predicate Fits(s: State) {
    && Numbered(s.tokens)
    && (forall session | session in s.verified :: Stored(s.tokens, s.verified[session]))
    && (forall session | session in s.rotating :: Retired(s.tokens, s.rotating[session]))
  }

  /** Rows are only appended, numbered on; they keep their user and family and stay revoked. */
  predicate Extends(before: seq<Token>, after: seq<Token>) {
    && |before| <= |after| && Numbered(after)
    && forall i :: 0 <= i < |before| ==>
         && after[i].userId == before[i].userId && after[i].familyId == before[i].familyId
         && (before[i].revoked.Some? ==> after[i].revoked.Some?)
  }

  lemma CallExtends(tokens: seq<Token>, ttl: int, call: Call)
    requires Numbered(tokens)
    ensures Extends(tokens, AfterCall(tokens, ttl, call))
  {
    if call.Refresh? && call.mayRotate {
      var verified := VerifyResult(tokens, call.rawToken, call.now);
      if verified.Success? {
        assert Extends(tokens, AfterRotate(tokens, verified.value, call.now, ttl, call.issueFails));
      }
    }
  }

  lemma StepExtends(s: State, ttl: int, event: Event)
    requires Fits(s)
    ensures Extends(s.tokens, Step(s, ttl, event).tokens)
  {
    match event
    case Whole(call) => CallExtends(s.tokens, ttl, call);
    case Verify(_, _, _) =>
    case RevokeVerified(_, _) =>
    case IssueSuccessor(session, _, _) =>
      assert session in s.rotating ==> Retired(s.tokens, s.rotating[session]);
  }

  lemma StepKeepsFits(s: State, ttl: int, event: Event)
    requires Fits(s)
    ensures Fits(Step(s, ttl, event)) && |s.tokens| <= |Step(s, ttl, event).tokens|
  {
    StepExtends(s, ttl, event);
    var after := Step(s, ttl, event);
    forall session | session in after.verified
      ensures Stored(after.tokens, after.verified[session])
    {
      assert Stored(s.tokens, after.verified[session]);
    }
    forall session | session in after.rotating
      ensures Retired(after.tokens, after.rotating[session])
    {
      assert session in s.rotating ==> Retired(s.tokens, s.rotating[session]);
      assert session in s.verified ==> Stored(s.tokens, s.verified[session]);
    }
  }

  lemma {:induction false} FitsAt(ttl: int, events: seq<Event>, k: nat)
    requires k <= |events|
    ensures Fits(At(ttl, events, k))
  {
    if k > 0 {
      FitsAt(ttl, events, k - 1);
      NextState(ttl, events, k - 1);
      StepKeepsFits(At(ttl, events, k - 1), ttl, events[k - 1]);
    }
  }

  // ---- families that branch -----------------------------------------------------------------------------

  /** The event issues a child to a token that is no longer the last of its family. */
  predicate Branches(s: State, event: Event) {
    && event.IssueSuccessor? && !event.issueFails && event.session in s.rotating
    && var id := s.rotating[event.session].id;
    && id < |s.tokens| && !LastOfFamily(s.tokens, id)
  }

  predicate NoBranching(ttl: int, events: seq<Event>) {
    forall k :: 0 <= k < |events| ==> !Branches(At(ttl, events, k), events[k])
  }

  lemma IssueKeepsChainsIff(tokens: seq<Token>, parent: Token, now: Instant, ttl: int)
    requires Chains(tokens) && Retired(tokens, parent)
    ensures Chains(AfterIssue(tokens, parent, now, ttl, false)) <==> LastOfFamily(tokens, parent.id)
  {
    var i, n := parent.id, |tokens|;
    if LastOfFamily(tokens, i) {
      IssuingKeepsChains(tokens, parent.userId, parent.familyId, Some(i), now + ttl);
    } else {
      var after := AfterIssue(tokens, parent, now, ttl, false);
      var k :| i + 1 <= k < n && SameFamily(tokens, i, k);
      assert SameFamily(after, n, k);
      assert !WellPlaced(after, n);
    }
  }

  lemma StepKeepsChainsIff(s: State, ttl: int, event: Event)
    requires Fits(s) && Chains(s.tokens)
    ensures Chains(Step(s, ttl, event).tokens) <==> !Branches(s, event)
  {
    match event
    case Whole(call) => CallKeepsChains(s.tokens, ttl, call);
    case Verify(_, rawToken, now) => RevokingKeepsChains(s.tokens, AfterVerify(s.tokens, rawToken, now));
    case RevokeVerified(_, _) => RevokingKeepsChains(s.tokens, Step(s, ttl, event).tokens);
    case IssueSuccessor(session, now, issueFails) =>
      if session in s.rotating && !issueFails {
        IssueKeepsChainsIff(s.tokens, s.rotating[session], now, ttl);
      }
  }

  lemma {:induction false} ChainsSoFar(ttl: int, events: seq<Event>, k: nat)
    requires k <= |events|
    requires forall i :: 0 <= i < k ==> !Branches(At(ttl, events, i), events[i])
    ensures Chains(At(ttl, events, k).tokens)
  {
    if k > 0 {
      ChainsSoFar(ttl, events, k - 1);
      NextState(ttl, events, k - 1);
      FitsAt(ttl, events, k - 1);
      StepKeepsChainsIff(At(ttl, events, k - 1), ttl, events[k - 1]);
    }
  }

  lemma {:induction false} FirstBranching(ttl: int, events: seq<Event>, n: nat) returns (k: nat)
    requires n <= |events| && exists i :: 0 <= i < n && Branches(At(ttl, events, i), events[i])
    ensures k < n && Branches(At(ttl, events, k), events[k])
    ensures forall i :: 0 <= i < k ==> !Branches(At(ttl, events, i), events[i])
  {
    if exists i :: 0 <= i < n - 1 && Branches(At(ttl, events, i), events[i]) {
      k := FirstBranching(ttl, events, n - 1);
    } else {
      k := n - 1;
    }
  }

  /** In every interleaving all families are linear chains at every moment exactly when each
      successor issued is that of a token that is still the last of its family. */
  lemma FamiliesStayChainsIff(ttl: int, events: seq<Event>)
    ensures (forall k: nat :: k <= |events| ==> Chains(At(ttl, events, k).tokens)) <==> NoBranching(ttl, events)
  {
    if NoBranching(ttl, events) {
      forall k: nat | k <= |events|
        ensures Chains(At(ttl, events, k).tokens)
      {
        ChainsSoFar(ttl, events, k);
      }
    } else {
      var k := FirstBranching(ttl, events, |events|);
      ChainsSoFar(ttl, events, k);
      NextState(ttl, events, k);
      FitsAt(ttl, events, k);
      StepKeepsChainsIff(At(ttl, events, k), ttl, events[k]);
      assert !Chains(At(ttl, events, k + 1).tokens);
    }
  }

  /** Verify, revoke, issue: the two steps of a refresh after its verification. */
  function AfterRotation(s: State, ttl: int, session: SessionId, now: Instant): State {
    Step(Step(s, ttl, RevokeVerified(session, now)), ttl, IssueSuccessor(session, now, false))
  }

  lemma RotationIsRotate(s: State, ttl: int, session: SessionId, now: Instant)
    requires session in s.verified
    ensures AfterRotation(s, ttl, session, now).tokens == AfterRotate(s.tokens, s.verified[session], now, ttl, false)
    ensures AfterRotation(s, ttl, session, now).verified == s.verified - {session}
  {
  }

  /** Whenever two refreshes verify one token before either rotates, the token gets two children,
      both alive. */
  lemma TwoRefreshesBranch(s: State, ttl: int, a: SessionId, b: SessionId, rawToken: nat, now: Instant)
    requires Fits(s) && s.Idle(a) && s.Idle(b) && a != b
    requires VerifyResult(s.tokens, rawToken, now).Success?
    ensures var both := Step(Step(s, ttl, Verify(a, rawToken, now)), ttl, Verify(b, rawToken, now));
            var after := AfterRotation(AfterRotation(both, ttl, a, now), ttl, b, now).tokens;
            var n := |s.tokens|;
            && |after| == n + 2 && after[n].parentId == after[n + 1].parentId
            && SameFamily(after, n, n + 1) && after[n].revoked.None? && after[n + 1].revoked.None?
  {
    var token := VerifyResult(s.tokens, rawToken, now).value;
    var both := Step(Step(s, ttl, Verify(a, rawToken, now)), ttl, Verify(b, rawToken, now));
    assert both.tokens == s.tokens && both.verified[a] == both.verified[b] == token;
    var first := AfterRotation(both, ttl, a, now);
    RotationIsRotate(both, ttl, a, now);
    assert b in first.verified && first.verified[b] == token && token.id < |s.tokens|;
    RotationIsRotate(first, ttl, b, now);
  }

  // ---- families that come back -------------------------------------------------------------------------------

  /** The event issues a token of the family on the strength of an earlier verification. */
  predicate Revives(s: State, event: Event, familyId: nat) {
    && event.IssueSuccessor? && !event.issueFails && event.session in s.rotating
    && s.rotating[event.session].familyId == familyId
  }

  /** From event k on, nothing revives the family. */
  predicate NoRevival(ttl: int, events: seq<Event>, k: nat, familyId: nat) {
    forall m :: k <= m < |events| ==> !Revives(At(ttl, events, m), events[m], familyId)
  }

  /** A dead family survives a step exactly when the step revives it. */
  lemma StepKeepsDeadIff(s: State, ttl: int, event: Event, familyId: nat)
    requires Fits(s) && familyId < |s.tokens| && DeadFamily(s.tokens, familyId)
    ensures DeadFamily(Step(s, ttl, event).tokens, familyId) <==> !Revives(s, event, familyId)
  {
    match event
    case Whole(call) => DeadFamilyStaysDead(s.tokens, ttl, call, familyId);
    case Verify(_, _, _) =>
    case RevokeVerified(_, _) =>
    case IssueSuccessor(session, now, issueFails) =>
      if Revives(s, event, familyId) {
        var after, n := Step(s, ttl, event).tokens, |s.tokens|;
        assert after[n].familyId == familyId && after[n].revoked.None?;
      }
  }

  lemma {:induction false} DeadSoFar(ttl: int, events: seq<Event>, k: nat, m: nat, familyId: nat)
    requires k <= m <= |events|
    requires familyId < |At(ttl, events, k).tokens| && DeadFamily(At(ttl, events, k).tokens, familyId)
    requires forall i :: k <= i < m ==> !Revives(At(ttl, events, i), events[i], familyId)
    ensures familyId < |At(ttl, events, m).tokens| && DeadFamily(At(ttl, events, m).tokens, familyId)
  {
    if k < m {
      DeadSoFar(ttl, events, k, m - 1, familyId);
      NextState(ttl, events, m - 1);
      FitsAt(ttl, events, m - 1);
      StepKeepsFits(At(ttl, events, m - 1), ttl, events[m - 1]);
      StepKeepsDeadIff(At(ttl, events, m - 1), ttl, events[m - 1], familyId);
    }
  }

  lemma {:induction false} FirstRevival(ttl: int, events: seq<Event>, k: nat, n: nat, familyId: nat) returns (m: nat)
    requires k <= n <= |events| && exists i :: k <= i < n && Revives(At(ttl, events, i), events[i], familyId)
    ensures k <= m < n && Revives(At(ttl, events, m), events[m], familyId)
    ensures forall i :: k <= i < m ==> !Revives(At(ttl, events, i), events[i], familyId)
  {
    if exists i :: k <= i < n - 1 && Revives(At(ttl, events, i), events[i], familyId) {
      m := FirstRevival(ttl, events, k, n - 1, familyId);
    } else {
      m := n - 1;
    }
  }

  /** In every interleaving a family without a live token - after a detected reuse, say - never
      has one again exactly when no refresh that had verified a token of it issues its successor
      later. */
  lemma DeadFamilyStaysDeadIff(ttl: int, events: seq<Event>, k: nat, familyId: nat)
    requires k <= |events|
    requires familyId < |At(ttl, events, k).tokens| && DeadFamily(At(ttl, events, k).tokens, familyId)
    ensures (forall m: nat :: k <= m <= |events| ==> DeadFamily(At(ttl, events, m).tokens, familyId))
            <==> NoRevival(ttl, events, k, familyId)
  {
    if NoRevival(ttl, events, k, familyId) {
      forall m: nat | k <= m <= |events|
        ensures DeadFamily(At(ttl, events, m).tokens, familyId)
      {
        DeadSoFar(ttl, events, k, m, familyId);
      }
    } else {
      var m := FirstRevival(ttl, events, k, |events|, familyId);
      DeadSoFar(ttl, events, k, m, familyId);
      NextState(ttl, events, m);
      FitsAt(ttl, events, m);
      StepKeepsDeadIff(At(ttl, events, m), ttl, events[m], familyId);
      assert !DeadFamily(At(ttl, events, m + 1).tokens, familyId);
    }
  }

  // ---- when a revocation is final ----------------------------------------------------------------------------

  /** No refresh under way holds a token of the family. */
  predicate NoneUnderWay(s: State, familyId: nat) {
    && (forall session | session in s.verified :: s.verified[session].familyId != familyId)
    && (forall session | session in s.rotating :: s.rotating[session].familyId != familyId)
  }

  lemma StepKeepsNoneUnderWay(s: State, ttl: int, event: Event, familyId: nat)
    requires DeadFamily(s.tokens, familyId) && NoneUnderWay(s, familyId)
    ensures NoneUnderWay(Step(s, ttl, event), familyId)
  {
  }

  lemma {:induction false} DeadWithNoneUnderWay(s: State, ttl: int, events: seq<Event>, familyId: nat)
    requires Fits(s) && familyId < |s.tokens| && DeadFamily(s.tokens, familyId) && NoneUnderWay(s, familyId)
    ensures var after := RunRaces(s, ttl, events);
            && Fits(after) && familyId < |after.tokens|
            && DeadFamily(after.tokens, familyId) && NoneUnderWay(after, familyId)
  {
    if events != [] {
      DeadWithNoneUnderWay(s, ttl, events[..|events| - 1], familyId);
      var before, event := RunRaces(s, ttl, events[..|events| - 1]), events[|events| - 1];
      StepKeepsFits(before, ttl, event);
      StepKeepsDeadIff(before, ttl, event, familyId);
      StepKeepsNoneUnderWay(before, ttl, event, familyId);
    }
  }

  lemma RotatingRevives(s: State, ttl: int, events: seq<Event>, session: SessionId)
    requires session in RunRaces(s, ttl, events).rotating
    ensures var revived := RunRaces(s, ttl, events + [IssueSuccessor(session, 0, false)]).tokens;
            !DeadFamily(revived, RunRaces(s, ttl, events).rotating[session].familyId)
  {
    var before, issue := RunRaces(s, ttl, events), IssueSuccessor(session, 0, false);
    assert (events + [issue])[..|events|] == events;
    var after, n := RunRaces(s, ttl, events + [issue]).tokens, |before.tokens|;
    assert after[n].familyId == before.rotating[session].familyId && after[n].revoked.None?;
  }

  lemma VerifiedRevives(s: State, ttl: int, session: SessionId)
    requires session in s.verified
    ensures var revived := RunRaces(s, ttl, [RevokeVerified(session, 0)] + [IssueSuccessor(session, 0, false)]).tokens;
            !DeadFamily(revived, s.verified[session].familyId)
  {
    var revoke := RevokeVerified(session, 0);
    assert [revoke][..0] == [];
    assert RunRaces(s, ttl, [revoke]) == Step(RunRaces(s, ttl, []), ttl, revoke);
    RotatingRevives(s, ttl, [revoke], session);
  }

  /** A dead family stays dead whatever follows exactly when no refresh that has verified a token
      of it is still under way. */
  lemma RevocationIsFinalIff(s: State, ttl: int, familyId: nat)
    requires Fits(s) && familyId < |s.tokens| && DeadFamily(s.tokens, familyId)
    ensures (forall events: seq<Event> :: DeadFamily(RunRaces(s, ttl, events).tokens, familyId))
            <==> NoneUnderWay(s, familyId)
  {
    if NoneUnderWay(s, familyId) {
      forall events: seq<Event>
        ensures DeadFamily(RunRaces(s, ttl, events).tokens, familyId)
      {
        DeadWithNoneUnderWay(s, ttl, events, familyId);
      }
    } else if session :| session in s.rotating && s.rotating[session].familyId == familyId {
      RotatingRevives(s, ttl, [], session);
      assert !DeadFamily(RunRaces(s, ttl, [] + [IssueSuccessor(session, 0, false)]).tokens, familyId);
    } else {
      var session :| session in s.verified && s.verified[session].familyId == familyId;
      VerifiedRevives(s, ttl, session);
      assert !DeadFamily(RunRaces(s, ttl, [RevokeVerified(session, 0)] + [IssueSuccessor(session, 0, false)]).tokens,
                         familyId);
    }
  }
}
