/** Refresh-token rotation with reuse detection
    (backend/internal/service/token_service.go and
    backend/internal/repository/refresh_token_repository.go).

    Ids, families and random tokens are only ever compared for equality; a fresh one is
    modelled by the number of rows, which no earlier row can carry. A raw token stands for
    its own hash: SHA-256 is taken as injective. */
module Tokens {
  import opened Sequences
  import opened Wrappers

  type UserId = nat
  type Instant = int

  datatype Reason = Rotated | Reused | LoggedOut | LoggedOutEverywhere | PasswordReset

  datatype Revocation = Revocation(at: Instant, reason: Reason)

  datatype Token = Token(
    id: nat,
    userId: UserId,
    tokenHash: nat,
    familyId: nat,
    parentId: Option<nat>,
    revoked: Option<Revocation>,
    expiresAt: Instant)
  {
    predicate IsActive(now: Instant) { revoked.None? && expiresAt > now }
  }

  datatype TokenError = TokenInvalid | TokenReused | TokenExpired | NotRotated | IssueFailed

  // ---- the table -------------------------------------------------------------------------

  function Find(tokens: seq<Token>, hash: nat): (index: Option<nat>)
    ensures index.Some? ==> index.value < |tokens| && tokens[index.value].tokenHash == hash
    ensures index.None? ==> forall i :: 0 <= i < |tokens| ==> tokens[i].tokenHash != hash
  {
    if tokens == [] then None
    else
      match Find(tokens[..|tokens| - 1], hash)
      case Some(i) => Some(i)
      case None => if tokens[|tokens| - 1].tokenHash == hash then Some(|tokens| - 1) else None
  }

  /** The condition of a revoking UPDATE. */
  datatype Where = FamilyIs(familyId: nat) | IdIs(id: nat) | UserIs(userId: UserId) {
    predicate Selects(t: Token) {
      match this
      case FamilyIs(f) => t.familyId == f
      case IdIs(i) => t.id == i
      case UserIs(u) => t.userId == u
    }
  }

  /** UPDATE ... SET revoked_at, revoked_reason WHERE which AND revoked_at IS NULL. */
  function RevokeWhere(tokens: seq<Token>, which: Where, revocation: Revocation): (r: seq<Token>)
    ensures |r| == |tokens|
    ensures forall i :: 0 <= i < |tokens| ==>
              r[i] == if which.Selects(tokens[i]) && tokens[i].revoked.None?
                      then tokens[i].(revoked := Some(revocation)) else tokens[i]
  {
    Map((t: Token) => if which.Selects(t) && t.revoked.None? then t.(revoked := Some(revocation)) else t, tokens)
  }

  function RevokeFamily(tokens: seq<Token>, familyId: nat, revocation: Revocation): seq<Token> {
    RevokeWhere(tokens, FamilyIs(familyId), revocation)
  }

  function RevokeByID(tokens: seq<Token>, id: nat, revocation: Revocation): seq<Token> {
    RevokeWhere(tokens, IdIs(id), revocation)
  }

  function RevokeAllForUser(tokens: seq<Token>, userId: UserId, revocation: Revocation): seq<Token> {
    RevokeWhere(tokens, UserIs(userId), revocation)
  }

  function Issue(tokens: seq<Token>, userId: UserId, familyId: nat, parentId: Option<nat>,
                 expiresAt: Instant): seq<Token> {
    tokens + [Token(|tokens|, userId, |tokens|, familyId, parentId, None, expiresAt)]
  }

  // ---- one call ------------------------------------------------------------------------------

  /** The calls a client can make. `mayRotate` says that the user and their context load and
      the user is active; `issueFails` that minting or storing the new token fails. */
  datatype Call =
    | Login(userId: UserId, now: Instant, issueFails: bool)
    | Refresh(rawToken: nat, now: Instant, mayRotate: bool, issueFails: bool)
    | Logout(rawToken: nat, now: Instant)
    | RevokeAll(userId: UserId, now: Instant, reason: Reason)

  /** VerifyRefresh: presenting a revoked token revokes its whole family. */
  function AfterVerify(tokens: seq<Token>, rawToken: nat, now: Instant): seq<Token> {
    match Find(tokens, rawToken)
    case Some(i) =>
      if tokens[i].revoked.Some? then RevokeFamily(tokens, tokens[i].familyId, Revocation(now, Reused)) else tokens
    case None => tokens
  }

  function VerifyResult(tokens: seq<Token>, rawToken: nat, now: Instant): Result<Token, TokenError> {
    match Find(tokens, rawToken)
    case None => Failure(TokenInvalid)
    case Some(i) =>
      if tokens[i].revoked.Some? then Failure(TokenReused)
      else if !tokens[i].IsActive(now) then Failure(TokenExpired)
      else Success(tokens[i])
  }

  /** Rotate: revoke the verified token, then issue its successor in the same family. */
  function AfterRotate(tokens: seq<Token>, verified: Token, now: Instant, ttl: int, issueFails: bool): seq<Token> {
    var revoked := RevokeByID(tokens, verified.id, Revocation(now, Rotated));
    if issueFails then revoked
    else Issue(revoked, verified.userId, verified.familyId, Some(verified.id), now + ttl)
  }

  function AfterCall(tokens: seq<Token>, ttl: int, call: Call): seq<Token> {
    match call
    case Login(userId, now, issueFails) =>
      if issueFails then tokens else Issue(tokens, userId, |tokens|, None, now + ttl)
    case Refresh(rawToken, now, mayRotate, issueFails) =>
      var verified := VerifyResult(tokens, rawToken, now);
      var after := AfterVerify(tokens, rawToken, now);
      if verified.Success? && mayRotate then AfterRotate(after, verified.value, now, ttl, issueFails) else after
    case Logout(rawToken, now) =>
      (match Find(tokens, rawToken)
       case Some(i) => RevokeByID(tokens, tokens[i].id, Revocation(now, LoggedOut))
       case None => tokens)
    case RevokeAll(userId, now, reason) =>
      RevokeAllForUser(tokens, userId, Revocation(now, reason))
  }

  function Run(tokens: seq<Token>, ttl: int, calls: seq<Call>): seq<Token> {
    if calls == [] then tokens
    else AfterCall(Run(tokens, ttl, calls[..|calls| - 1]), ttl, calls[|calls| - 1])
  }

  // ---- the service ------------------------------------------------------------------------------

  class TokenService {
    var tokens: seq<Token>
    const refreshTtl: int

    constructor (refreshTtl: int)
      ensures tokens == [] && this.refreshTtl == refreshTtl
    {
      tokens := [];
      this.refreshTtl := refreshTtl;
    }

    /** One UPDATE over the rows, in place. */
    method Update(which: Where, revocation: Revocation)
      modifies this
      ensures tokens == RevokeWhere(old(tokens), which, revocation)
    {
      for i := 0 to |tokens|
        invariant |tokens| == |old(tokens)|
        invariant tokens[..i] == RevokeWhere(old(tokens), which, revocation)[..i]
        invariant tokens[i..] == old(tokens)[i..]
      {
        assert tokens[i] == tokens[i..][0];
        if which.Selects(tokens[i]) && tokens[i].revoked.None? {
          tokens := tokens[i := tokens[i].(revoked := Some(revocation))];
        }
      }
    }

    method IssueToken(userId: UserId, familyId: nat, parentId: Option<nat>, now: Instant, issueFails: bool)
      returns (rawToken: Result<nat, TokenError>)
      modifies this
      ensures tokens == if issueFails then old(tokens)
                        else Issue(old(tokens), userId, familyId, parentId, now + refreshTtl)
      ensures rawToken == if issueFails then Failure(IssueFailed) else Success(|old(tokens)|)
    {
      if issueFails {
        return Failure(IssueFailed);
      }
      var row := Token(|tokens|, userId, |tokens|, familyId, parentId, None, now + refreshTtl);
      tokens := tokens + [row];
      return Success(row.tokenHash);
    }

    method IssuePair(userId: UserId, now: Instant, issueFails: bool) returns (rawToken: Result<nat, TokenError>)
      modifies this
      ensures tokens == AfterCall(old(tokens), refreshTtl, Login(userId, now, issueFails))
      ensures rawToken == if issueFails then Failure(IssueFailed) else Success(|old(tokens)|)
    {
      rawToken := IssueToken(userId, |tokens|, None, now, issueFails);
    }

    method VerifyRefresh(rawToken: nat, now: Instant) returns (verified: Result<Token, TokenError>)
      modifies this
      ensures tokens == AfterVerify(old(tokens), rawToken, now)
      ensures verified == VerifyResult(old(tokens), rawToken, now)
    {
      var found := Find(tokens, rawToken);
      if found.None? {
        return Failure(TokenInvalid);
      }
      var existing := tokens[found.value];
      if existing.revoked.Some? {
        Update(FamilyIs(existing.familyId), Revocation(now, Reused));
        return Failure(TokenReused);
      }
      if !existing.IsActive(now) {
        return Failure(TokenExpired);
      }
      return Success(existing);
    }

    method Rotate(verified: Token, now: Instant, issueFails: bool) returns (rawToken: Result<nat, TokenError>)
      modifies this
      ensures tokens == AfterRotate(old(tokens), verified, now, refreshTtl, issueFails)
      ensures rawToken == if issueFails then Failure(IssueFailed) else Success(|old(tokens)|)
    {
      Update(IdIs(verified.id), Revocation(now, Rotated));
      rawToken := IssueToken(verified.userId, verified.familyId, Some(verified.id), now, issueFails);
    }

    /** Verify and rotate with nothing in between. */
    method Refresh(rawToken: nat, now: Instant, mayRotate: bool, issueFails: bool)
      returns (successor: Result<nat, TokenError>)
      modifies this
      ensures tokens == AfterCall(old(tokens), refreshTtl, Call.Refresh(rawToken, now, mayRotate, issueFails))
      ensures match VerifyResult(old(tokens), rawToken, now)
              case Failure(e) => successor == Failure(e)
              case Success(_) =>
                successor == if !mayRotate then Failure(NotRotated)
                             else if issueFails then Failure(IssueFailed) else Success(|old(tokens)|)
    {
      var verified := VerifyRefresh(rawToken, now);
      if verified.Failure? {
        return Failure(verified.error);
      }
      if !mayRotate {
        return Failure(NotRotated);
      }
      successor := Rotate(verified.value, now, issueFails);
    }

    /** Logging out an already-gone token is not an error. */
    method Revoke(rawToken: nat, now: Instant)
      modifies this
      ensures tokens == AfterCall(old(tokens), refreshTtl, Logout(rawToken, now))
    {
      var found := Find(tokens, rawToken);
      if found.Some? {
        var id := tokens[found.value].id;
        Update(IdIs(id), Revocation(now, LoggedOut));
      }
    }

    method RevokeEverything(userId: UserId, now: Instant, reason: Reason)
      modifies this
      ensures tokens == AfterCall(old(tokens), refreshTtl, RevokeAll(userId, now, reason))
    {
      Update(UserIs(userId), Revocation(now, reason));
    }
  }

  // ---- the shape every run keeps ---------------------------------------------------------------

  predicate SameFamily(tokens: seq<Token>, i: nat, k: nat)
    requires i < |tokens| && k < |tokens|
  {
    tokens[i].familyId == tokens[k].familyId
  }

  /** No token of row i's family stands in rows lo .. hi. */
  predicate NoneBetween(tokens: seq<Token>, i: nat, lo: nat, hi: nat)
    requires i < |tokens| && hi <= |tokens|
  {
    forall k | lo <= k < hi :: !SameFamily(tokens, i, k)
  }

  /** A root opens its family; any other token follows its parent, which is the token just
      before it in the family, belongs to the same user, and is revoked. */
  predicate WellPlaced(tokens: seq<Token>, i: nat)
    requires i < |tokens|
  {
    && tokens[i].id == i && tokens[i].tokenHash == i && tokens[i].familyId <= i
    && match tokens[i].parentId
       case None => tokens[i].familyId == i
       case Some(p) =>
         && p < i && SameFamily(tokens, i, p)
         && tokens[p].userId == tokens[i].userId
         && tokens[p].revoked.Some?
         && NoneBetween(tokens, i, p + 1, i)
  }

  predicate Chains(tokens: seq<Token>) {
    && (forall i :: 0 <= i < |tokens| ==> WellPlaced(tokens, i))
    && (forall i :: 0 <= i < |tokens| && tokens[i].revoked.None? ==> NoneBetween(tokens, i, i + 1, |tokens|))
  }

  /** Some more tokens are revoked, nothing else changes. */
  predicate OnlyRevokes(before: seq<Token>, after: seq<Token>) {
    && |after| == |before|
    && forall i :: 0 <= i < |before| ==>
         || after[i] == before[i]
         || (before[i].revoked.None? && after[i].revoked.Some? && after[i] == before[i].(revoked := after[i].revoked))
  }

  lemma RevokingKeepsChains(before: seq<Token>, after: seq<Token>)
    requires Chains(before) && OnlyRevokes(before, after)
    ensures Chains(after)
  {
    forall i | 0 <= i < |after|
      ensures WellPlaced(after, i)
    {
      assert WellPlaced(before, i);
      if after[i].parentId.Some? {
        var p := after[i].parentId.value;
        forall k | p + 1 <= k < i
          ensures !SameFamily(after, i, k)
        {
          assert !SameFamily(before, i, k);
        }
      }
    }
    forall i | 0 <= i < |after| && after[i].revoked.None?
      ensures NoneBetween(after, i, i + 1, |after|)
    {
      assert before[i].revoked.None?;
      forall k | i + 1 <= k < |after|
        ensures !SameFamily(after, i, k)
      {
        assert !SameFamily(before, i, k);
      }
    }
  }

  /** The last token of row i's family. */
  predicate LastOfFamily(tokens: seq<Token>, i: nat)
    requires i < |tokens|
  {
    NoneBetween(tokens, i, i + 1, |tokens|)
  }

  /** A successor keeps the chains when its parent is revoked and the last of its family. */
  lemma IssuingKeepsChains(tokens: seq<Token>, userId: UserId, familyId: nat, parentId: Option<nat>, expiresAt: Instant)
    requires Chains(tokens)
    requires match parentId
             case None => familyId == |tokens|
             case Some(p) =>
               && p < |tokens| && tokens[p].familyId == familyId && tokens[p].userId == userId
               && tokens[p].revoked.Some? && LastOfFamily(tokens, p)
    ensures Chains(Issue(tokens, userId, familyId, parentId, expiresAt))
  {
    var after := Issue(tokens, userId, familyId, parentId, expiresAt);
    var n := |tokens|;
    forall i | 0 <= i < |after|
      ensures WellPlaced(after, i)
    {
      if i < n {
        assert WellPlaced(tokens, i);
        if tokens[i].parentId.Some? {
          forall k | tokens[i].parentId.value + 1 <= k < i
            ensures !SameFamily(after, i, k)
          {
            assert !SameFamily(tokens, i, k);
          }
        }
      } else if parentId.Some? {
        assert WellPlaced(tokens, parentId.value);
        forall k | parentId.value + 1 <= k < n
          ensures !SameFamily(after, n, k)
        {
          assert !SameFamily(tokens, parentId.value, k);
        }
      }
    }
    forall i | 0 <= i < |after| && after[i].revoked.None?
      ensures NoneBetween(after, i, i + 1, |after|)
    {
      forall k | i + 1 <= k < |after|
        ensures !SameFamily(after, i, k)
      {
        if k < n {
          assert !SameFamily(tokens, i, k);
        } else {
          assert WellPlaced(tokens, i);
          if parentId.Some? {
            var p := parentId.value;
            assert i < p ==> !SameFamily(tokens, i, p);
            assert p < i ==> !SameFamily(tokens, p, i);
          }
        }
      }
    }
  }

  lemma RotationKeepsChains(tokens: seq<Token>, i: nat, now: Instant, ttl: int, issueFails: bool)
    requires Chains(tokens) && i < |tokens| && LastOfFamily(tokens, i)
    ensures Chains(AfterRotate(tokens, tokens[i], now, ttl, issueFails))
  {
    assert WellPlaced(tokens, i);
    var revoked := RevokeByID(tokens, tokens[i].id, Revocation(now, Rotated));
    RevokingKeepsChains(tokens, revoked);
    if !issueFails {
      forall k | i + 1 <= k < |revoked|
        ensures !SameFamily(revoked, i, k)
      {
        assert !SameFamily(tokens, i, k);
      }
      IssuingKeepsChains(revoked, tokens[i].userId, tokens[i].familyId, Some(i), now + ttl);
    }
  }

  lemma CallKeepsChains(tokens: seq<Token>, ttl: int, call: Call)
    requires Chains(tokens)
    ensures Chains(AfterCall(tokens, ttl, call))
  {
    match call
    case Login(userId, now, issueFails) =>
      if !issueFails {
        IssuingKeepsChains(tokens, userId, |tokens|, None, now + ttl);
      }
    case Refresh(rawToken, now, mayRotate, issueFails) =>
      RevokingKeepsChains(tokens, AfterVerify(tokens, rawToken, now));
      if VerifyResult(tokens, rawToken, now).Success? && mayRotate {
        RotationKeepsChains(tokens, Find(tokens, rawToken).value, now, ttl, issueFails);
      }
    case Logout(rawToken, now) =>
      RevokingKeepsChains(tokens, AfterCall(tokens, ttl, call));
    case RevokeAll(userId, now, reason) =>
      RevokingKeepsChains(tokens, AfterCall(tokens, ttl, call));
  }

  /** Every reachable table is made of chains. */
  lemma {:induction false} RunKeepsChains(tokens: seq<Token>, ttl: int, calls: seq<Call>)
    requires Chains(tokens)
    ensures Chains(Run(tokens, ttl, calls))
  {
    if calls != [] {
      RunKeepsChains(tokens, ttl, calls[..|calls| - 1]);
      CallKeepsChains(Run(tokens, ttl, calls[..|calls| - 1]), ttl, calls[|calls| - 1]);
    }
  }

  // ---- what the shape means ----------------------------------------------------------------------

  /** a is a proper ancestor of i. */
  predicate Ancestor(tokens: seq<Token>, a: nat, i: nat)
    requires Chains(tokens) && i < |tokens|
    decreases i
  {
    assert WellPlaced(tokens, i);
    match tokens[i].parentId
    case None => false
    case Some(p) => a == p || Ancestor(tokens, a, p)
  }

  /** A family is one linear chain: of two of its tokens, the earlier is an ancestor of the
      later; and every ancestor is revoked. */
  lemma {:induction false} FamilyIsLinear(tokens: seq<Token>, a: nat, i: nat)
    requires Chains(tokens) && a < |tokens| && i < |tokens|
    ensures Ancestor(tokens, a, i) <==> a < i && SameFamily(tokens, a, i)
    ensures Ancestor(tokens, a, i) ==> tokens[a].revoked.Some?
    decreases i
  {
    assert WellPlaced(tokens, i);
    match tokens[i].parentId
    case None =>
      assert WellPlaced(tokens, a);
    case Some(p) =>
      FamilyIsLinear(tokens, a, p);
      if p < a < i {
        assert !SameFamily(tokens, i, a);
      }
  }

  /** The promise of rotation, for every run of logins, refreshes, logouts and revocations:
      at most one token of a family is unrevoked, a token has at most one child, and every
      ancestor of a token is revoked. */
  lemma FamiliesAreLinearChains(ttl: int, calls: seq<Call>, i: nat, k: nat)
    requires i < k < |Run([], ttl, calls)|
    ensures var tokens := Run([], ttl, calls);
            && Chains(tokens)
            && (SameFamily(tokens, i, k) ==> tokens[i].revoked.Some? && Ancestor(tokens, i, k))
            && (tokens[i].parentId.Some? ==> tokens[i].parentId != tokens[k].parentId)
            && (Ancestor(tokens, i, k) ==> tokens[i].revoked.Some? && tokens[i].userId == tokens[k].userId)
  {
    var tokens := Run([], ttl, calls);
    RunKeepsChains([], ttl, calls);
    FamilyIsLinear(tokens, i, k);
    AncestorsShareUser(tokens, i, k);
    assert WellPlaced(tokens, i) && WellPlaced(tokens, k);
    assert tokens[k].parentId.Some? && tokens[k].parentId.value < i ==> !SameFamily(tokens, k, i);
  }

  lemma {:induction false} AncestorsShareUser(tokens: seq<Token>, a: nat, i: nat)
    requires Chains(tokens) && a < |tokens| && i < |tokens|
    ensures Ancestor(tokens, a, i) ==> tokens[a].userId == tokens[i].userId
    decreases i
  {
    assert WellPlaced(tokens, i);
    if tokens[i].parentId.Some? {
      AncestorsShareUser(tokens, a, tokens[i].parentId.value);
    }
  }

  // ---- revocation is for ever -----------------------------------------------------------------------

  /** Rows are never removed, and a revoked row never changes again. */
  lemma {:induction false} RevokedForever(tokens: seq<Token>, ttl: int, calls: seq<Call>)
    ensures |tokens| <= |Run(tokens, ttl, calls)|
    ensures forall i :: 0 <= i < |tokens| && tokens[i].revoked.Some? ==> Run(tokens, ttl, calls)[i] == tokens[i]
    ensures forall i :: 0 <= i < |tokens| ==> Run(tokens, ttl, calls)[i].familyId == tokens[i].familyId
  {
    if calls != [] {
      RevokedForever(tokens, ttl, calls[..|calls| - 1]);
    }
  }

  predicate DeadFamily(tokens: seq<Token>, familyId: nat) {
    forall i :: 0 <= i < |tokens| && tokens[i].familyId == familyId ==> tokens[i].revoked.Some?
  }

  lemma DeadFamilyStaysDead(tokens: seq<Token>, ttl: int, call: Call, familyId: nat)
    requires familyId < |tokens| && DeadFamily(tokens, familyId)
    ensures DeadFamily(AfterCall(tokens, ttl, call), familyId)
  {
    if call.Refresh? {
      assert DeadFamily(AfterVerify(tokens, call.rawToken, call.now), familyId);
    }
  }

  lemma {:induction false} RunKeepsFamilyDead(tokens: seq<Token>, ttl: int, calls: seq<Call>, familyId: nat)
    requires Chains(tokens) && familyId < |tokens| && DeadFamily(tokens, familyId)
    ensures DeadFamily(Run(tokens, ttl, calls), familyId)
  {
    if calls != [] {
      var before := calls[..|calls| - 1];
      RunKeepsFamilyDead(tokens, ttl, before, familyId);
      RunKeepsChains(tokens, ttl, before);
      RevokedForever(tokens, ttl, before);
      DeadFamilyStaysDead(Run(tokens, ttl, before), ttl, calls[|calls| - 1], familyId);
    }
  }

  /** Reuse detection: once a revoked token is presented for a refresh, no token of its
      family - existing or issued later - is ever unrevoked again. */
  lemma {:induction false} ReuseKillsFamilyForever(ttl: int, before: seq<Call>, reuse: Call, later: seq<Call>)
    requires reuse.Refresh?
    requires VerifyResult(Run([], ttl, before), reuse.rawToken, reuse.now) == Failure(TokenReused)
    ensures var tokens := Run([], ttl, before);
            var presented := tokens[Find(tokens, reuse.rawToken).value];
            DeadFamily(Run(AfterCall(tokens, ttl, reuse), ttl, later), presented.familyId)
  {
    var tokens := Run([], ttl, before);
    var i := Find(tokens, reuse.rawToken).value;
    RunKeepsChains([], ttl, before);
    CallKeepsChains(tokens, ttl, reuse);
    assert WellPlaced(tokens, i);
    RunKeepsFamilyDead(AfterCall(tokens, ttl, reuse), ttl, later, tokens[i].familyId);
  }

  // ---- how long a token lasts --------------------------------------------------------------------------

  lemma FoundRow(tokens: seq<Token>, rawToken: nat, i: nat)
    requires Chains(tokens) && i < |tokens| && tokens[i].tokenHash == rawToken
    ensures Find(tokens, rawToken) == Some(i)
  {
    var found := Find(tokens, rawToken);
    assert WellPlaced(tokens, i);
    assert found.Some? ==> WellPlaced(tokens, found.value);
  }

  /** In every reachable table the row of a presented token decides: it is good exactly when it is
      unrevoked and expires later than now, expired exactly when it is unrevoked and expires now or
      earlier, reused exactly when it is revoked. */
  lemma VerifiedIff(ttl: int, calls: seq<Call>, rawToken: nat, now: Instant, i: nat)
    requires i < |Run([], ttl, calls)| && Run([], ttl, calls)[i].tokenHash == rawToken
    ensures var row, result := Run([], ttl, calls)[i], VerifyResult(Run([], ttl, calls), rawToken, now);
            && (result.Success? <==> row.revoked.None? && now < row.expiresAt)
            && (result.Success? ==> result.value == row)
            && (result == Failure(TokenExpired) <==> row.revoked.None? && row.expiresAt <= now)
            && (result == Failure(TokenReused) <==> row.revoked.Some?)
  {
    RunKeepsChains([], ttl, calls);
    FoundRow(Run([], ttl, calls), rawToken, i);
  }

  /** A token is unknown exactly when no row has its hash. */
  lemma UnknownIff(tokens: seq<Token>, rawToken: nat, now: Instant)
    ensures VerifyResult(tokens, rawToken, now) == Failure(TokenInvalid)
            <==> forall i :: 0 <= i < |tokens| ==> tokens[i].tokenHash != rawToken
  {
    var found := Find(tokens, rawToken);
    assert found.Some? ==> tokens[found.value].tokenHash == rawToken;
  }

  /** Presenting an expired token that is not revoked changes no row. */
  lemma ExpiredTokenChangesNothing(ttl: int, calls: seq<Call>, refresh: Call, i: nat)
    requires i < |Run([], ttl, calls)| && refresh.Refresh?
    requires var row := Run([], ttl, calls)[i];
             row.tokenHash == refresh.rawToken && row.revoked.None? && row.expiresAt <= refresh.now
    ensures AfterCall(Run([], ttl, calls), ttl, refresh) == Run([], ttl, calls)
  {
    RunKeepsChains([], ttl, calls);
    FoundRow(Run([], ttl, calls), refresh.rawToken, i);
  }

  /** A call adds at most one row, which expires ttl after it, and moves no other expiry. */
  lemma CallIssues(tokens: seq<Token>, ttl: int, call: Call)
    ensures var after := AfterCall(tokens, ttl, call);
            && |tokens| <= |after| <= |tokens| + 1
            && (forall i :: 0 <= i < |tokens| ==> after[i].expiresAt == tokens[i].expiresAt)
            && (|after| > |tokens| ==>
                  (call.Login? || call.Refresh?) && after[|tokens|].expiresAt == call.now + ttl)
  {
  }

  /** Every token was issued by a login or a refresh, and expires ttl after it. */
  lemma {:induction false} TokenExpiresTtlAfterIssue(ttl: int, calls: seq<Call>, i: nat) returns (w: nat)
    requires i < |Run([], ttl, calls)|
    ensures w < |calls| && (calls[w].Login? || calls[w].Refresh?)
    ensures |Run([], ttl, calls[..w])| == i && |Run([], ttl, calls[..w + 1])| == i + 1
    ensures Run([], ttl, calls)[i].expiresAt == calls[w].now + ttl
  {
    var n := |calls| - 1;
    var before := Run([], ttl, calls[..n]);
    CallIssues(before, ttl, calls[n]);
    if i < |before| {
      w := TokenExpiresTtlAfterIssue(ttl, calls[..n], i);
      assert calls[..n][..w] == calls[..w] && calls[..n][..w + 1] == calls[..w + 1];
    } else {
      w := n;
      assert calls[..n + 1] == calls;
    }
  }

  lemma IssuingRefreshIsVerified(tokens: seq<Token>, ttl: int, refresh: Call) returns (i: nat)
    requires refresh.Refresh? && |AfterCall(tokens, ttl, refresh)| > |tokens|
    ensures i < |tokens| && tokens[i].tokenHash == refresh.rawToken
    ensures VerifyResult(tokens, refresh.rawToken, refresh.now).Success?
  {
    i := Find(tokens, refresh.rawToken).value;
  }

  /** A refresh that issues a successor was made less than ttl after the token it presents was
      issued: no refresh token outlives its ttl. */
  lemma RefreshIsWithinTtl(ttl: int, calls: seq<Call>, k: nat) returns (w: nat)
    requires k < |calls| && calls[k].Refresh? && |Run([], ttl, calls[..k + 1])| > |Run([], ttl, calls[..k])|
    ensures w < k && (calls[w].Login? || calls[w].Refresh?)
    ensures var tokens, i := Run([], ttl, calls[..k]), |Run([], ttl, calls[..w])|;
            && i < |tokens| && tokens[i].tokenHash == calls[k].rawToken
            && calls[k].now < calls[w].now + ttl
  {
    assert calls[..k + 1][..k] == calls[..k];
    var i := IssuingRefreshIsVerified(Run([], ttl, calls[..k]), ttl, calls[k]);
    VerifiedIff(ttl, calls[..k], calls[k].rawToken, calls[k].now, i);
    w := TokenExpiresTtlAfterIssue(ttl, calls[..k], i);
    assert calls[..k][..w] == calls[..w];
  }

  // ---- what a call does to the rows ---------------------------------------------------------------------

  predicate Indexed(tokens: seq<Token>) {
    forall i :: 0 <= i < |tokens| ==> tokens[i].id == tokens[i].tokenHash == i
  }

  lemma ReachableIsIndexed(ttl: int, calls: seq<Call>)
    ensures Indexed(Run([], ttl, calls))
  {
    RunKeepsChains([], ttl, calls);
    assert forall i :: 0 <= i < |Run([], ttl, calls)| ==> WellPlaced(Run([], ttl, calls), i);
  }

  lemma FoundByIndex(tokens: seq<Token>, rawToken: nat)
    requires Indexed(tokens)
    ensures Find(tokens, rawToken) == if rawToken < |tokens| then Some(rawToken) else None
  {
    assert rawToken < |tokens| ==> tokens[rawToken].tokenHash == rawToken;
  }

  /** Only row i may differ, and the table is at most one row longer. */
  predicate SameBut(before: seq<Token>, after: seq<Token>, i: nat) {
    |before| <= |after| <= |before| + 1 && forall k :: 0 <= k < |before| && k != i ==> after[k] == before[k]
  }

  /** A refresh with a good token revokes that token, and then adds its successor - same user, same
      family, fresh, expiring ttl later - unless that fails. If the user may not go on, or the token
      has expired, nothing changes. */
  lemma {:induction false} RefreshRotates(ttl: int, calls: seq<Call>, refresh: Call, i: nat)
    requires i < |Run([], ttl, calls)| && refresh.Refresh?
    requires Run([], ttl, calls)[i].tokenHash == refresh.rawToken && Run([], ttl, calls)[i].revoked.None?
    ensures var tokens := Run([], ttl, calls);
            var after, n, row := AfterCall(tokens, ttl, refresh), |tokens|, tokens[i];
            if refresh.now < row.expiresAt && refresh.mayRotate then
              && SameBut(tokens, after, i) && after[i] == row.(revoked := Some(Revocation(refresh.now, Rotated)))
              && (|after| > n <==> !refresh.issueFails)
              && (|after| > n ==>
                    after[n] == Token(n, row.userId, n, row.familyId, Some(i), None, refresh.now + ttl))
            else after == tokens
  {
    ReachableIsIndexed(ttl, calls);
    FoundByIndex(Run([], ttl, calls), refresh.rawToken);
  }

  /** A refresh with a revoked token revokes what is left of its family and touches no other row. */
  lemma {:induction false} ReuseRevokesFamily(ttl: int, calls: seq<Call>, refresh: Call, i: nat)
    requires i < |Run([], ttl, calls)| && refresh.Refresh?
    requires Run([], ttl, calls)[i].tokenHash == refresh.rawToken && Run([], ttl, calls)[i].revoked.Some?
    ensures var tokens, after := Run([], ttl, calls), AfterCall(Run([], ttl, calls), ttl, refresh);
            && |after| == |tokens|
            && forall k :: 0 <= k < |tokens| ==>
                 after[k] == if tokens[k].familyId == tokens[i].familyId && tokens[k].revoked.None?
                             then tokens[k].(revoked := Some(Revocation(refresh.now, Reused))) else tokens[k]
  {
    ReachableIsIndexed(ttl, calls);
    FoundByIndex(Run([], ttl, calls), refresh.rawToken);
  }

  /** A login adds the root of a family of its own, unless it fails, and changes no row. */
  lemma {:induction false} LoginOpensFamily(tokens: seq<Token>, ttl: int, login: Call)
    requires login.Login?
    ensures AfterCall(tokens, ttl, login)
         == if login.issueFails then tokens
            else tokens + [Token(|tokens|, login.userId, |tokens|, |tokens|, None, None, login.now + ttl)]
  {
  }

  /** A logout revokes the presented token and no other row. */
  lemma {:induction false} LogoutRevokesOne(ttl: int, calls: seq<Call>, logout: Call)
    requires logout.Logout?
    ensures var tokens, after := Run([], ttl, calls), AfterCall(Run([], ttl, calls), ttl, logout);
            && |after| == |tokens|
            && forall k :: 0 <= k < |tokens| ==>
                 after[k] == if tokens[k].tokenHash == logout.rawToken && tokens[k].revoked.None?
                             then tokens[k].(revoked := Some(Revocation(logout.now, LoggedOut))) else tokens[k]
  {
    ReachableIsIndexed(ttl, calls);
    FoundByIndex(Run([], ttl, calls), logout.rawToken);
  }

  /** Revoking everything revokes the unrevoked tokens of that user and touches no other row. */
  lemma {:induction false} RevokeAllRevokesUser(tokens: seq<Token>, ttl: int, revoke: Call)
    requires revoke.RevokeAll?
    ensures var after := AfterCall(tokens, ttl, revoke);
            && |after| == |tokens|
            && forall k :: 0 <= k < |tokens| ==>
                 after[k] == if tokens[k].userId == revoke.userId && tokens[k].revoked.None?
                             then tokens[k].(revoked := Some(Revocation(revoke.now, revoke.reason))) else tokens[k]
  {
  }

  // ---- what a logout ends ----------------------------------------------------------------------------------

  /** A logout revokes the one token presented. That ends the session - no token of the family
      is left unrevoked - exactly when the token was the family's live one, or none was left:
      presenting a token that has been rotated away logs nothing out. */
  lemma LogoutEndsFamilyIff(tokens: seq<Token>, ttl: int, rawToken: nat, now: Instant)
    requires Chains(tokens) && Find(tokens, rawToken).Some?
    ensures var presented := tokens[Find(tokens, rawToken).value];
            DeadFamily(AfterCall(tokens, ttl, Logout(rawToken, now)), presented.familyId) <==>
            presented.revoked.None? || DeadFamily(tokens, presented.familyId)
  {
    var i := Find(tokens, rawToken).value;
    var after := AfterCall(tokens, ttl, Logout(rawToken, now));
    assert WellPlaced(tokens, i);
    if tokens[i].revoked.None? {
      forall k | 0 <= k < |after| && after[k].familyId == tokens[i].familyId
        ensures after[k].revoked.Some?
      {
        assert WellPlaced(tokens, k);
        assert i < k ==> !SameFamily(tokens, i, k);
        assert k < i && tokens[k].revoked.None? ==> !SameFamily(tokens, k, i);
      }
    } else {
      forall k | 0 <= k < |tokens|
        ensures after[k] == tokens[k]
      {
        assert WellPlaced(tokens, k);
      }
      assert after == tokens;
    }
  }

  /** And such a logout is final: whatever is called later, the session never comes back. */
  lemma {:induction false} LogoutIsFinal(ttl: int, before: seq<Call>, logout: Call, later: seq<Call>)
    requires logout.Logout? && Find(Run([], ttl, before), logout.rawToken).Some?
    ensures var tokens := Run([], ttl, before);
            var presented := tokens[Find(tokens, logout.rawToken).value];
            presented.revoked.None? || DeadFamily(tokens, presented.familyId) ==>
              DeadFamily(Run(AfterCall(tokens, ttl, logout), ttl, later), presented.familyId)
  {
    var tokens := Run([], ttl, before);
    var i := Find(tokens, logout.rawToken).value;
    RunKeepsChains([], ttl, before);
    CallKeepsChains(tokens, ttl, logout);
    LogoutEndsFamilyIff(tokens, ttl, logout.rawToken, logout.now);
    assert WellPlaced(tokens, i);
    if tokens[i].revoked.None? || DeadFamily(tokens, tokens[i].familyId) {
      RunKeepsFamilyDead(AfterCall(tokens, ttl, logout), ttl, later, tokens[i].familyId);
    }
  }

  /** After a login and a refresh, logging out with the first token leaves the second alive. */
  lemma LogoutWithRotatedToken()
    ensures var tokens := Run([], 10, [Login(7, 0, false), Refresh(0, 1, true, false), Logout(0, 2)]);
            |tokens| == 2 && tokens[1].familyId == tokens[0].familyId && tokens[1].revoked.None?
  {
    var login, refresh, logout := Login(7, 0, false), Refresh(0, 1, true, false), Logout(0, 2);
    var issued := Run([], 10, [login]);
    assert [login][..0] == [];
    assert issued == AfterCall(Run([], 10, []), 10, login) == Issue([], 7, 0, None, 10);
    assert issued[..0] == [] && Find(issued, 0) == Some(0);
    assert [login, refresh][..1] == [login];
    var rotated := Run([], 10, [login, refresh]);
    assert rotated == AfterRotate(issued, issued[0], 1, 10, false);
    assert rotated[..1][..0] == [] && Find(rotated[..1], 0) == Some(0) && Find(rotated, 0) == Some(0);
    assert [login, refresh, logout][..2] == [login, refresh];
  }

  /** Revoking everything of a user ends each of the user's sessions for good: no token of such a
      family is ever unrevoked again. */
  lemma {:induction false} RevokeAllIsFinal(ttl: int, before: seq<Call>, revoke: Call, later: seq<Call>, i: nat)
    requires revoke.RevokeAll? && i < |Run([], ttl, before)| && Run([], ttl, before)[i].userId == revoke.userId
    ensures var tokens := Run([], ttl, before);
            DeadFamily(Run(AfterCall(tokens, ttl, revoke), ttl, later), tokens[i].familyId)
  {
    var tokens := Run([], ttl, before);
    var after := AfterCall(tokens, ttl, revoke);
    RunKeepsChains([], ttl, before);
    CallKeepsChains(tokens, ttl, revoke);
    assert WellPlaced(tokens, i);
    forall k | 0 <= k < |after| && after[k].familyId == tokens[i].familyId
      ensures after[k].revoked.Some?
    {
      FamilyIsLinear(tokens, i, k);
      FamilyIsLinear(tokens, k, i);
      AncestorsShareUser(tokens, i, k);
      AncestorsShareUser(tokens, k, i);
    }
    RunKeepsFamilyDead(after, ttl, later, tokens[i].familyId);
  }

  // ---- when verify and rotate are separated -------------------------------------------------------------

  /** Rotate trusts a token verified earlier. The chains survive exactly when that token is
      still the last of its family at the moment of rotation; two refreshes that verify the
      same token before either rotates give it two children. */
  lemma RotationKeepsChainsIff(tokens: seq<Token>, i: nat, now: Instant, ttl: int)
    requires Chains(tokens) && i < |tokens|
    ensures Chains(AfterRotate(tokens, tokens[i], now, ttl, false)) <==> LastOfFamily(tokens, i)
  {
    if LastOfFamily(tokens, i) {
      RotationKeepsChains(tokens, i, now, ttl, false);
    } else {
      var n := |tokens|;
      var after := AfterRotate(tokens, tokens[i], now, ttl, false);
      assert WellPlaced(tokens, i);
      var k :| i + 1 <= k < n && SameFamily(tokens, i, k);
      assert SameFamily(after, n, k);
      assert !WellPlaced(after, n);
    }
  }

  /** And such a stale rotation always revives a family that had been revoked meanwhile. */
  lemma StaleRotationRevivesFamily(tokens: seq<Token>, i: nat, now: Instant, ttl: int)
    requires Chains(tokens) && i < |tokens| && DeadFamily(tokens, tokens[i].familyId)
    ensures !DeadFamily(AfterRotate(tokens, tokens[i], now, ttl, false), tokens[i].familyId)
  {
    var after := AfterRotate(tokens, tokens[i], now, ttl, false);
    assert after[|tokens|].familyId == tokens[i].familyId && after[|tokens|].revoked.None?;
  }
}
