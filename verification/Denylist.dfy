/** The in-memory access-token denylist (backend/internal/service/token_denylist.go): a map
    that is purged on every write must answer like a log that forgets nothing. */
module Denylist {
  import opened Wrappers

  type Instant = int
  type Duration = int

  // ---- the store -------------------------------------------------------------------------

  /** purgeExpired at `now`. */
  function Purged(expires: map<string, Instant>, now: Instant): map<string, Instant> {
    map jti | jti in expires && !(now > expires[jti]) :: expires[jti]
  }

  class MemoryDenylist {
    var expires: map<string, Instant>

    constructor ()
      ensures expires == map[]
    {
      expires := map[];
    }

    /** Deletes while ranging over the map, in whatever order the entries come. */
    method PurgeExpired(now: Instant)
      modifies this
      ensures expires == Purged(old(expires), now)
    {
      var todo := expires.Keys;
      while todo != {}
        invariant todo <= expires.Keys <= old(expires).Keys
        invariant forall jti | jti in expires :: expires[jti] == old(expires)[jti]
        invariant forall jti | jti in old(expires) && jti !in todo :: jti in expires <==> !(now > old(expires)[jti])
        decreases todo
      {
        var jti :| jti in todo;
        todo := todo - {jti};
        if now > expires[jti] {
          expires := expires - {jti};
        }
      }
    }

    /** The clock is read twice: for the purge and for the new entry. */
    method Add(jti: string, ttl: Duration, purgeAt: Instant, writeAt: Instant)
      modifies this
      ensures expires == AfterCall(old(expires), Call.Add(jti, ttl, purgeAt, writeAt))
    {
      PurgeExpired(purgeAt);
      expires := expires[jti := writeAt + ttl];
    }

    method Has(jti: string, now: Instant) returns (denied: bool)
      modifies this
      ensures expires == AfterCall(old(expires), Call.Has(jti, now))
      ensures denied == Answer(old(expires), jti, now)
    {
      if jti !in expires {
        return false;
      }
      if now > expires[jti] {
        expires := expires - {jti};
        return false;
      }
      return true;
    }
  }

  datatype Call =
    | Add(jti: string, ttl: Duration, purgeAt: Instant, writeAt: Instant)
    | Has(jti: string, now: Instant)
  {
    function Begins(): Instant { if Add? then purgeAt else now }
    function Ends(): Instant { if Add? then writeAt else now }
  }

  function AfterCall(expires: map<string, Instant>, call: Call): map<string, Instant> {
    match call
    case Add(jti, ttl, purgeAt, writeAt) => Purged(expires, purgeAt)[jti := writeAt + ttl]
    case Has(jti, now) => if jti in expires && now > expires[jti] then expires - {jti} else expires
  }

  predicate Answer(expires: map<string, Instant>, jti: string, now: Instant) {
    jti in expires && !(now > expires[jti])
  }

  function Run(calls: seq<Call>): map<string, Instant> {
    if calls == [] then map[] else AfterCall(Run(calls[..|calls| - 1]), calls[|calls| - 1])
  }

  // ---- the specification: nothing is ever forgotten -------------------------------------------

  /** Expiry of the last write of a jti. */
  function LastExpiry(calls: seq<Call>, jti: string): Option<Instant> {
    if calls == [] then None
    else
      match calls[|calls| - 1]
      case Add(j, ttl, _, writeAt) =>
        if j == jti then Some(writeAt + ttl) else LastExpiry(calls[..|calls| - 1], jti)
      case Has(_, _) => LastExpiry(calls[..|calls| - 1], jti)
  }

  predicate LogAnswer(calls: seq<Call>, jti: string, now: Instant) {
    LastExpiry(calls, jti).Some? && now <= LastExpiry(calls, jti).value
  }

  /** The clock never goes back, neither inside a call nor from one call to the next. */
  predicate ClockMonotone(calls: seq<Call>) {
    && (forall i :: 0 <= i < |calls| ==> calls[i].Begins() <= calls[i].Ends())
    && (forall i, k :: 0 <= i < k < |calls| ==> calls[i].Ends() <= calls[k].Begins())
  }

  /** The map keeps last writes only, and lacks only what had expired by some past instant. */
  ghost predicate Refines(calls: seq<Call>, expires: map<string, Instant>, clock: Instant) {
    forall jti: string ::
      && (jti in expires ==> LastExpiry(calls, jti) == Some(expires[jti]))
      && (jti !in expires && LastExpiry(calls, jti).Some? ==> LastExpiry(calls, jti).value < clock)
  }

  lemma {:induction false} RunRefinesLog(calls: seq<Call>, clock: Instant)
    requires ClockMonotone(calls)
    requires calls != [] ==> calls[|calls| - 1].Ends() <= clock
    ensures Refines(calls, Run(calls), clock)
  {
    if calls != [] {
      var before, last := calls[..|calls| - 1], calls[|calls| - 1];
      RunRefinesLog(before, last.Begins());
    }
  }

  /** Under a clock that never goes back, every answer of the purging denylist - in any
      sequence of writes and reads - is the answer of the log that was never purged. */
  lemma DenylistAnswersLikeLog(calls: seq<Call>, jti: string, now: Instant)
    requires ClockMonotone(calls + [Call.Has(jti, now)])
    ensures Answer(Run(calls), jti, now) <==> LogAnswer(calls, jti, now)
  {
    var all := calls + [Call.Has(jti, now)];
    forall i | 0 <= i < |calls|
      ensures calls[i] == all[i]
    {
    }
    assert all[|calls|].Begins() == now;
    RunRefinesLog(calls, now);
  }

  /** A token once denied stays denied until its expiry, whatever else is written. */
  lemma DeniedUntilExpiry(calls: seq<Call>, add: Call, later: seq<Call>, now: Instant)
    requires add.Add? && forall c | c in later :: c.Add? ==> c.jti != add.jti
    requires ClockMonotone(calls + [add] + later + [Call.Has(add.jti, now)])
    ensures Answer(Run(calls + [add] + later), add.jti, now) <==> now <= add.writeAt + add.ttl
  {
    DenylistAnswersLikeLog(calls + [add] + later, add.jti, now);
    LastExpiryKept(calls + [add], later, add.jti);
  }

  lemma {:induction false} LastExpiryKept(calls: seq<Call>, later: seq<Call>, jti: string)
    requires forall c | c in later :: c.Add? ==> c.jti != jti
    ensures LastExpiry(calls + later, jti) == LastExpiry(calls, jti)
  {
    if later == [] {
      assert calls + later == calls;
    } else {
      var n := |later| - 1;
      LastExpiryKept(calls, later[..n], jti);
      assert (calls + later)[..|calls| + n] == calls + later[..n];
      assert later[n] in later;
    }
  }

  /** With a clock that goes back the purge forgets a token that is still to be denied. */
  lemma ClockMustNotGoBack()
    ensures var calls := [Call.Add("a", 10, 0, 0), Call.Add("b", 10, 20, 20)];
            LogAnswer(calls, "a", 5) && !Answer(Run(calls), "a", 5)
  {
    var first, second := Call.Add("a", 10, 0, 0), Call.Add("b", 10, 20, 20);
    var calls := [first, second];
    assert calls[..1] == [first] && [first][..0] == [];
    assert Run([first]) == map["a" := 10];
  }
}
