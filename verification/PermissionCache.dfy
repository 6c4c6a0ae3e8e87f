/** The permission cache (backend/internal/service/authorization_service.go): what a user may
    do, read from the role tables and remembered for a short time. A miss is resolved without
    holding the lock, so the steps of one resolution - lookup, the two queries, the store -
    interleave freely with other resolutions, with invalidations and with table changes. */
module PermissionCache {
  import opened Wrappers

  type UserId = nat
  type RoleId = nat
  type SessionId = nat
  type Instant = int
  type Duration = int

  // ---- the role tables ----------------------------------------------------------------------

  datatype Tables = Tables(userRoles: map<UserId, set<RoleId>>, rolePermissions: map<RoleId, set<string>>)
  {
    function ListRoleIDs(user: UserId): set<RoleId> {
      if user in userRoles then userRoles[user] else {}
    }

    function ListPermissionNamesForRoles(roles: set<RoleId>): set<string> {
      set role, name | role in roles && role in rolePermissions && name in rolePermissions[role] :: name
    }

    /** Every permission the user's roles grant. */
    function Granted(user: UserId): set<string> {
      ListPermissionNamesForRoles(ListRoleIDs(user))
    }
  }

  // ---- one step of a resolution -----------------------------------------------------------------

  datatype Entry = Entry(permissions: set<string>, expiresAt: Instant)

  type Cache = map<UserId, Entry>

  /** How far a resolution that missed has come. */
  datatype Resolving =
    | Missed(user: UserId)
    | HasRoles(user: UserId, roles: set<RoleId>)
    | HasNames(user: UserId, names: set<string>)

  datatype State = State(tables: Tables, cache: Cache, resolving: map<SessionId, Resolving>)

  /** The clock is read for the lookup and again for the store; `now` of a query is the instant
      it sees the tables. */
  datatype Event =
    | SetTables(tables: Tables)
    | Lookup(session: SessionId, user: UserId, now: Instant)
    | LoadRoles(session: SessionId, now: Instant, databaseUp: bool)
    | LoadNames(session: SessionId, now: Instant, databaseUp: bool)
    | Store(session: SessionId, now: Instant)
    | Invalidate(user: UserId)

  /** lookup: a missing or expired entry is a miss. */
  function Cached(cache: Cache, user: UserId, now: Instant): Option<set<string>> {
    if user !in cache || now > cache[user].expiresAt then None else Some(cache[user].permissions)
  }

  /** A step that is not enabled changes nothing; a query that fails ends its resolution. */
  function Step(ttl: Duration, s: State, event: Event): State {
    match event
    case SetTables(tables) => s.(tables := tables)
    case Lookup(id, user, now) =>
      if id !in s.resolving && Cached(s.cache, user, now).None?
      then s.(resolving := s.resolving[id := Missed(user)]) else s
    case LoadRoles(id, _, databaseUp) =>
      if id !in s.resolving || !s.resolving[id].Missed? then s
      else if !databaseUp then s.(resolving := s.resolving - {id})
      else
        var user := s.resolving[id].user;
        s.(resolving := s.resolving[id := HasRoles(user, s.tables.ListRoleIDs(user))])
    case LoadNames(id, _, databaseUp) =>
      if id !in s.resolving || !s.resolving[id].HasRoles? then s
      else if !databaseUp then s.(resolving := s.resolving - {id})
      else
        var names := s.tables.ListPermissionNamesForRoles(s.resolving[id].roles);
        s.(resolving := s.resolving[id := HasNames(s.resolving[id].user, names)])
    case Store(id, now) =>
      if id !in s.resolving || !s.resolving[id].HasNames? then s
      else
        var entry := Entry(s.resolving[id].names, now + ttl);
        s.(cache := s.cache[s.resolving[id].user := entry], resolving := s.resolving - {id})
    case Invalidate(user) => s.(cache := s.cache - {user})
  }

  function Run(ttl: Duration, s: State, events: seq<Event>): State {
    if events == [] then s else Step(ttl, Run(ttl, s, events[..|events| - 1]), events[|events| - 1])
  }

  datatype Answer = Answer(user: UserId, permissions: set<string>)

  /** What a step answers: a lookup that hits, and the store that ends a resolution. */
  function AnswerOf(s: State, event: Event): Option<Answer> {
    match event
    case Lookup(id, user, now) =>
      if id !in s.resolving && Cached(s.cache, user, now).Some?
      then Some(Answer(user, Cached(s.cache, user, now).value)) else None
    case Store(id, _) =>
      if id in s.resolving && s.resolving[id].HasNames?
      then Some(Answer(s.resolving[id].user, s.resolving[id].names)) else None
    case _ => None
  }

  // ---- the service --------------------------------------------------------------------------------

  /** What an uninterrupted resolution answers and leaves in the cache. */
  function Resolved(cache: Cache, tables: Tables, user: UserId, lookupAt: Instant,
                    databaseUp: bool): Option<set<string>> {
    match Cached(cache, user, lookupAt)
    case Some(permissions) => Some(permissions)
    case None => if databaseUp then Some(tables.Granted(user)) else None
  }

  function AfterResolve(cache: Cache, ttl: Duration, tables: Tables, user: UserId, lookupAt: Instant,
                        storeAt: Instant, databaseUp: bool): Cache {
    if Cached(cache, user, lookupAt).None? && databaseUp
    then cache[user := Entry(tables.Granted(user), storeAt + ttl)]
    else cache
  }

  class AuthorizationService {
    var cache: Cache
    var resolving: map<SessionId, Resolving>
    const ttl: Duration

    constructor (ttl: Duration)
      ensures cache == map[] && resolving == map[] && this.ttl == ttl
    {
      cache, resolving := map[], map[];
      this.ttl := ttl;
    }

    function StateWith(tables: Tables): State
      reads this
    {
      State(tables, cache, resolving)
    }

    /** Under the read lock. */
    method Lookup(session: SessionId, user: UserId, now: Instant, ghost tables: Tables)
      returns (hit: Option<set<string>>)
      requires session !in resolving
      modifies this`resolving
      ensures StateWith(tables) == Step(ttl, old(StateWith(tables)), Event.Lookup(session, user, now))
      ensures hit == Cached(cache, user, now)
    {
      if user in cache && now <= cache[user].expiresAt {
        return Some(cache[user].permissions);
      }
      resolving := resolving[session := Missed(user)];
      return None;
    }

    method LoadRoles(session: SessionId, tables: Tables, now: Instant, databaseUp: bool)
      requires session in resolving && resolving[session].Missed?
      modifies this`resolving
      ensures StateWith(tables) == Step(ttl, old(StateWith(tables)), Event.LoadRoles(session, now, databaseUp))
    {
      var user := resolving[session].user;
      if databaseUp {
        resolving := resolving[session := HasRoles(user, tables.ListRoleIDs(user))];
      } else {
        resolving := resolving - {session};
      }
    }

    method LoadNames(session: SessionId, tables: Tables, now: Instant, databaseUp: bool)
      requires session in resolving && resolving[session].HasRoles?
      modifies this`resolving
      ensures StateWith(tables) == Step(ttl, old(StateWith(tables)), Event.LoadNames(session, now, databaseUp))
    {
      var user, roles := resolving[session].user, resolving[session].roles;
      if databaseUp {
        resolving := resolving[session := HasNames(user, tables.ListPermissionNamesForRoles(roles))];
      } else {
        resolving := resolving - {session};
      }
    }

    /** Under the write lock. */
    method Store(session: SessionId, now: Instant, ghost tables: Tables) returns (permissions: set<string>)
      requires session in resolving && resolving[session].HasNames?
      modifies this
      ensures StateWith(tables) == Step(ttl, old(StateWith(tables)), Event.Store(session, now))
      ensures permissions == old(resolving)[session].names
    {
      var user := resolving[session].user;
      permissions := resolving[session].names;
      cache := cache[user := Entry(permissions, now + ttl)];
      resolving := resolving - {session};
    }

    /** The steps of one resolution with nothing in between. */
    method Resolve(session: SessionId, tables: Tables, user: UserId, lookupAt: Instant, storeAt: Instant,
                   databaseUp: bool)
      returns (permissions: Option<set<string>>)
      requires session !in resolving
      modifies this
      ensures cache == AfterResolve(old(cache), ttl, tables, user, lookupAt, storeAt, databaseUp)
      ensures resolving == old(resolving)
      ensures permissions == Resolved(old(cache), tables, user, lookupAt, databaseUp)
    {
      permissions := Lookup(session, user, lookupAt, tables);
      if permissions.Some? {
        return;
      }
      LoadRoles(session, tables, lookupAt, databaseUp);
      if !databaseUp {
        return None;
      }
      LoadNames(session, tables, lookupAt, databaseUp);
      var names := Store(session, storeAt, tables);
      return Some(names);
    }

    method Has(session: SessionId, tables: Tables, user: UserId, permission: string, lookupAt: Instant,
               storeAt: Instant, databaseUp: bool)
      returns (allowed: Option<bool>)
      requires session !in resolving
      modifies this
      ensures cache == AfterResolve(old(cache), ttl, tables, user, lookupAt, storeAt, databaseUp)
      ensures resolving == old(resolving)
      ensures allowed == match Resolved(old(cache), tables, user, lookupAt, databaseUp)
                         case Some(permissions) => Some(permission in permissions)
                         case None => None
    {
      var permissions := Resolve(session, tables, user, lookupAt, storeAt, databaseUp);
      allowed := if permissions.Some? then Some(permission in permissions.value) else None;
    }

    /** Drops the one user's entry; resolutions in flight are not stopped. */
    method Invalidate(user: UserId)
      modifies this`cache
      ensures cache == old(cache) - {user}
    {
      cache := cache - {user};
    }
  }

  // ---- nothing in between --------------------------------------------------------------------------

  /** An unexpired entry is answered as it is and changes nothing. Otherwise a resolution with nothing
      in between leaves the user's granted permissions in the cache, expiring ttl after the store,
      or - when the database fails - leaves everything as it was; no session stays open. */
  lemma UninterruptedResolution(ttl: Duration, s: State, id: SessionId, user: UserId, lookupAt: Instant,
                                storeAt: Instant, databaseUp: bool)
    requires id !in s.resolving
    ensures var hit := user in s.cache && lookupAt <= s.cache[user].expiresAt;
            var missed := Step(ttl, s, Lookup(id, user, lookupAt));
            var loaded := Step(ttl, Step(ttl, missed, LoadRoles(id, lookupAt, databaseUp)),
                               LoadNames(id, lookupAt, databaseUp));
            var after := Step(ttl, loaded, Store(id, storeAt));
            && after == (if hit || !databaseUp then s
                         else s.(cache := s.cache[user := Entry(s.tables.Granted(user), storeAt + ttl)]))
            && AnswerOf(s, Lookup(id, user, lookupAt))
               == (if hit then Some(Answer(user, s.cache[user].permissions)) else None)
            && AnswerOf(loaded, Store(id, storeAt))
               == (if hit || !databaseUp then None else Some(Answer(user, s.tables.Granted(user))))
            && (hit ==> missed == s)
            && after.cache == AfterResolve(s.cache, ttl, s.tables, user, lookupAt, storeAt, databaseUp)
            && Resolved(s.cache, s.tables, user, lookupAt, databaseUp)
               == (if hit then Some(s.cache[user].permissions)
                   else if databaseUp then Some(s.tables.Granted(user)) else None)
  {
    var missed := Step(ttl, s, Lookup(id, user, lookupAt));
    var roles := Step(ttl, missed, LoadRoles(id, lookupAt, databaseUp));
    var loaded := Step(ttl, roles, LoadNames(id, lookupAt, databaseUp));
    var after := Step(ttl, loaded, Store(id, storeAt));
    assert after.resolving == s.resolving;
  }

  /** A permission is granted exactly when some role of the user has it. */
  lemma GrantedIff(tables: Tables, user: UserId, name: string)
    ensures name in tables.Granted(user) <==>
            exists role :: role in tables.ListRoleIDs(user) && role in tables.rolePermissions
                           && name in tables.rolePermissions[role]
  {
  }

  // ---- where an answer comes from -------------------------------------------------------------------

  function Started(tables: Tables): State {
    State(tables, map[], map[])
  }

  /** The tables in force when event k happens. */
  function TablesAt(ttl: Duration, initial: Tables, events: seq<Event>, k: nat): Tables
    requires k <= |events|
  {
    Run(ttl, Started(initial), events[..k]).tables
  }

  /** Session id queried the user's roles at event r. */
  predicate ReadsRoles(ttl: Duration, initial: Tables, events: seq<Event>, id: SessionId, user: UserId,
                       roles: set<RoleId>, r: nat) {
    && r < |events| && events[r].LoadRoles? && events[r].session == id
    && roles == TablesAt(ttl, initial, events, r).ListRoleIDs(user)
  }

  /** Session id queried the roles at event r and their permissions at the later event n. */
  predicate ReadsNames(ttl: Duration, initial: Tables, events: seq<Event>, id: SessionId, user: UserId,
                       names: set<string>, r: nat, n: nat) {
    && r < n < |events| && events[n].LoadNames? && events[n].session == id
    && events[r].LoadRoles? && events[r].session == id
    && names == TablesAt(ttl, initial, events, n).ListPermissionNamesForRoles(
                  TablesAt(ttl, initial, events, r).ListRoleIDs(user))
  }

  lemma PrefixTables(ttl: Duration, initial: Tables, events: seq<Event>, n: nat, k: nat)
    requires k <= n <= |events|
    ensures TablesAt(ttl, initial, events[..n], k) == TablesAt(ttl, initial, events, k)
  {
    assert events[..n][..k] == events[..k];
  }

  lemma {:induction false} SessionHasOrigin(ttl: Duration, initial: Tables, events: seq<Event>, id: SessionId)
    returns (r: nat, n: nat)
    requires id in Run(ttl, Started(initial), events).resolving
    ensures var work := Run(ttl, Started(initial), events).resolving[id];
            && (work.HasRoles? ==> ReadsRoles(ttl, initial, events, id, work.user, work.roles, r))
            && (work.HasNames? ==> ReadsNames(ttl, initial, events, id, work.user, work.names, r, n))
  {
    r, n := 0, 0;
    if events != [] {
      var last := |events| - 1;
      var before, event := Run(ttl, Started(initial), events[..last]), events[last];
      if id in before.resolving {
        r, n := SessionHasOrigin(ttl, initial, events[..last], id);
        if before.resolving[id].HasRoles? {
          PrefixTables(ttl, initial, events, last, r);
        }
        if before.resolving[id].HasNames? {
          PrefixTables(ttl, initial, events, last, r);
          PrefixTables(ttl, initial, events, last, n);
        }
        if event.LoadRoles? && event.session == id && before.resolving[id].Missed? {
          r := last;
        }
        if event.LoadNames? && event.session == id && before.resolving[id].HasRoles? {
          n := last;
        }
      }
    }
  }

  /** The cached entry was stored at event st, from the reads r and n, and never dropped since. */
  predicate StoredBy(ttl: Duration, initial: Tables, events: seq<Event>, user: UserId, entry: Entry, r: nat, n: nat,
                     st: nat) {
    && n < st < |events| && events[st].Store?
    && ReadsNames(ttl, initial, events, events[st].session, user, entry.permissions, r, n)
    && entry.expiresAt == events[st].now + ttl
    && NotInvalidatedSince(events, user, st)
  }

  predicate NotInvalidatedSince(events: seq<Event>, user: UserId, k: nat) {
    forall i :: k <= i < |events| ==> events[i] != Invalidate(user)
  }

  lemma ReadsStay(ttl: Duration, initial: Tables, events: seq<Event>, last: nat, id: SessionId, user: UserId,
                  names: set<string>, r: nat, n: nat)
    requires last <= |events| && ReadsNames(ttl, initial, events[..last], id, user, names, r, n)
    ensures ReadsNames(ttl, initial, events, id, user, names, r, n)
  {
    PrefixTables(ttl, initial, events, last, r);
    PrefixTables(ttl, initial, events, last, n);
  }

  lemma {:induction false} EntryHasOrigin(ttl: Duration, initial: Tables, events: seq<Event>, user: UserId)
    returns (r: nat, n: nat, st: nat)
    requires user in Run(ttl, Started(initial), events).cache
    ensures StoredBy(ttl, initial, events, user, Run(ttl, Started(initial), events).cache[user], r, n, st)
  {
    r, n, st := 0, 0, 0;
    if events != [] {
      var last := |events| - 1;
      var before, event := Run(ttl, Started(initial), events[..last]), events[last];
      if event.Store? && AnswerOf(before, event).Some? && before.resolving[event.session].user == user {
        st := last;
        r, n := SessionHasOrigin(ttl, initial, events[..last], event.session);
        ReadsStay(ttl, initial, events, last, event.session, user, before.resolving[event.session].names, r, n);
      } else {
        r, n, st := EntryHasOrigin(ttl, initial, events[..last], user);
        ReadsStay(ttl, initial, events, last, events[st].session, user, before.cache[user].permissions, r, n);
        forall i | st <= i < |events|
          ensures events[i] != Invalidate(user)
        {
          if i < last {
            assert events[..last][i] == events[i];
          }
        }
      }
    }
  }

  /** Staleness, whatever interleaves: every answer is made of the roles the tables gave the user
      at one query and the permissions they gave those roles at a later one, both of the same
      resolution. The answering lookup comes at most ttl after that resolution stored - so at
      most ttl plus the time the resolution took after its first query - with no invalidation
      of the user in between. */
  lemma AnswerComesFromItsReads(ttl: Duration, initial: Tables, events: seq<Event>, i: nat)
    returns (r: nat, n: nat, st: nat)
    requires i < |events| && AnswerOf(Run(ttl, Started(initial), events[..i]), events[i]).Some?
    ensures r < n < st <= i && events[r].LoadRoles? && events[n].LoadNames? && events[st].Store?
    ensures events[r].session == events[n].session == events[st].session
    ensures var answer := AnswerOf(Run(ttl, Started(initial), events[..i]), events[i]).value;
            && answer.permissions == TablesAt(ttl, initial, events, n).ListPermissionNamesForRoles(
                                       TablesAt(ttl, initial, events, r).ListRoleIDs(answer.user))
            && (events[i].Lookup? ==> NotInvalidatedSince(events[..i], answer.user, st))
    ensures events[i].Lookup? ==> events[i].now - events[r].now <= ttl + (events[st].now - events[r].now)
    ensures events[i].Store? ==> st == i
  {
    var before, event := Run(ttl, Started(initial), events[..i]), events[i];
    var answer := AnswerOf(before, event).value;
    if event.Lookup? {
      r, n, st := EntryHasOrigin(ttl, initial, events[..i], answer.user);
      ReadsStay(ttl, initial, events, i, events[st].session, answer.user, answer.permissions, r, n);
    } else {
      st := i;
      r, n := SessionHasOrigin(ttl, initial, events[..i], event.session);
      ReadsStay(ttl, initial, events, i, event.session, answer.user, answer.permissions, r, n);
    }
  }

  // ---- the two queries ------------------------------------------------------------------------------------

  lemma RoleGrants(tables: Tables, roles: set<RoleId>, role: RoleId, name: string)
    requires role in roles && role in tables.rolePermissions && name in tables.rolePermissions[role]
    ensures name in tables.ListPermissionNamesForRoles(roles)
  {
  }

  /** When the user's roles change between the two queries, the answer mixes two instants. It is
      what the second instant grants, whatever the roles permit, exactly when the user's roles
      did not change. */
  lemma TornReadIsCurrentIff(user: UserId, before: Tables, after: map<UserId, set<RoleId>>)
    ensures (forall permissions: map<RoleId, set<string>> ::
               Tables(after, permissions).ListPermissionNamesForRoles(before.ListRoleIDs(user))
               == Tables(after, permissions).Granted(user))
            <==> before.ListRoleIDs(user) == Tables(after, map[]).ListRoleIDs(user)
  {
    var left, joined := before.ListRoleIDs(user), Tables(after, map[]).ListRoleIDs(user);
    assert forall permissions: map<RoleId, set<string>> :: Tables(after, permissions).ListRoleIDs(user) == joined;
    if left != joined {
      var role :| (role in left && role !in joined) || (role in joined && role !in left);
      var tables := Tables(after, map[role := {"permission"}]);
      RoleGrants(tables, if role in left then left else joined, role, "permission");
      assert "permission" !in tables.ListPermissionNamesForRoles(if role in left then joined else left);
    }
  }

  /** An answer no instant ever granted: the user leaves a role just before it is given more
      rights, between the two queries. */
  lemma TornAnswerWasNeverGranted(ttl: Duration, now: Instant)
    ensures var before := Tables(map[7 := {1}], map[]);
            var after := Tables(map[7 := {2}], map[1 := {"payroll"}]);
            var events := [Lookup(0, 7, now), LoadRoles(0, now, true), SetTables(after), LoadNames(0, now, true)];
            && AnswerOf(Run(ttl, Started(before), events), Store(0, now)) == Some(Answer(7, {"payroll"}))
            && before.Granted(7) == after.Granted(7) == {}
  {
    var before := Tables(map[7 := {1}], map[]);
    var after := Tables(map[7 := {2}], map[1 := {"payroll"}]);
    var e0, e1, e2, e3 := Lookup(0, 7, now), LoadRoles(0, now, true), SetTables(after), LoadNames(0, now, true);
    assert [e0, e1, e2, e3][..3] == [e0, e1, e2] && [e0, e1, e2][..2] == [e0, e1];
    assert [e0, e1][..1] == [e0] && [e0][..0] == [];
    var s1 := Step(ttl, Started(before), e0);
    assert Run(ttl, Started(before), [e0]) == s1 && s1.resolving == map[0 := Missed(7)];
    var s2 := Step(ttl, s1, e1);
    assert Run(ttl, Started(before), [e0, e1]) == s2 && s2.resolving == map[0 := HasRoles(7, {1})];
    var s3 := Step(ttl, s2, e2);
    assert Run(ttl, Started(before), [e0, e1, e2]) == s3;
    RoleGrants(after, {1}, 1, "payroll");
    assert after.ListPermissionNamesForRoles({1}) == {"payroll"};
    assert Run(ttl, Started(before), [e0, e1, e2, e3]) == Step(ttl, s3, e3);
  }

  // ---- what Invalidate guarantees ------------------------------------------------------------------------------

  predicate NoTableChange(events: seq<Event>) {
    forall k :: 0 <= k < |events| ==> !events[k].SetTables?
  }

  /** If event i of a continuation answers about the user, it answers what the tables grant. */
  predicate CurrentAt(ttl: Duration, s: State, later: seq<Event>, i: nat, user: UserId)
    requires i < |later|
  {
    var answer := AnswerOf(Run(ttl, s, later[..i]), later[i]);
    answer.Some? && answer.value.user == user ==> answer.value.permissions == s.tables.Granted(user)
  }

  /** Every continuation without table changes answers currently about the user. */
  ghost predicate AlwaysCurrent(ttl: Duration, s: State, user: UserId) {
    forall later: seq<Event>, i: nat | i < |later| && NoTableChange(later) :: CurrentAt(ttl, s, later, i, user)
  }

  /** The resolution has read nothing out of date. */
  predicate IsFresh(tables: Tables, work: Resolving) {
    match work
    case Missed(_) => true
    case HasRoles(user, roles) => tables.ListPermissionNamesForRoles(roles) == tables.Granted(user)
    case HasNames(user, names) => names == tables.Granted(user)
  }

  predicate InFlightFresh(s: State, user: UserId) {
    forall id | id in s.resolving && s.resolving[id].user == user :: IsFresh(s.tables, s.resolving[id])
  }

  predicate EntryFresh(s: State, user: UserId) {
    user in s.cache ==> s.cache[user].permissions == s.tables.Granted(user)
  }

  lemma {:induction false} FreshnessStays(ttl: Duration, s: State, later: seq<Event>, user: UserId)
    requires NoTableChange(later) && InFlightFresh(s, user) && EntryFresh(s, user)
    ensures var after := Run(ttl, s, later);
            after.tables == s.tables && InFlightFresh(after, user) && EntryFresh(after, user)
  {
    if later != [] {
      var n := |later| - 1;
      FreshnessStays(ttl, s, later[..n], user);
      assert !later[n].SetTables?;
    }
  }

  lemma StaleFlightAnswers(ttl: Duration, s: State, user: UserId, id: SessionId)
    requires id in s.resolving && s.resolving[id].user == user && !IsFresh(s.tables, s.resolving[id])
    ensures !AlwaysCurrent(ttl, s, user)
  {
    if s.resolving[id].HasNames? {
      var later := [Store(id, 0)];
      assert later[..0] == [];
      assert !CurrentAt(ttl, s, later, 0, user);
    } else {
      var load, store := LoadNames(id, 0, true), Store(id, 0);
      assert [load, store][..1] == [load] && [load][..0] == [];
      assert Run(ttl, s, [load]) == Step(ttl, s, load);
      assert !CurrentAt(ttl, s, [load, store], 1, user);
    }
  }

  /** After Invalidate, and for as long as the tables stay as they are, every answer about the
      user is the current one - in every interleaving - exactly when, at the moment of the
      Invalidate, no resolution of that user is in flight with something out of date. */
  lemma InvalidateMakesAnswersCurrentIff(ttl: Duration, s: State, user: UserId)
    ensures AlwaysCurrent(ttl, Step(ttl, s, Invalidate(user)), user) <==> InFlightFresh(s, user)
  {
    var after := Step(ttl, s, Invalidate(user));
    if InFlightFresh(s, user) {
      forall later: seq<Event>, i: nat | i < |later| && NoTableChange(later)
        ensures CurrentAt(ttl, after, later, i, user)
      {
        FreshnessStays(ttl, after, later[..i], user);
      }
    } else {
      var id :| id in s.resolving && s.resolving[id].user == user && !IsFresh(s.tables, s.resolving[id]);
      StaleFlightAnswers(ttl, after, user, id);
    }
  }

  /** A set read before the Invalidate and stored after it is answered for a full ttl more. */
  lemma OvertakenReadOutlivesInvalidate(ttl: Duration, s: State, id: SessionId, storeAt: Instant,
                                        other: SessionId, now: Instant)
    requires id in s.resolving && s.resolving[id].HasNames?
    requires other !in s.resolving && now <= storeAt + ttl
    ensures var user := s.resolving[id].user;
            AnswerOf(Run(ttl, s, [Invalidate(user), Store(id, storeAt)]), Lookup(other, user, now))
            == Some(Answer(user, s.resolving[id].names))
  {
    var invalidate, store := Invalidate(s.resolving[id].user), Store(id, storeAt);
    assert [invalidate, store][..1] == [invalidate] && [invalidate][..0] == [];
    assert Run(ttl, s, [invalidate]) == Step(ttl, s, invalidate);
  }

  // ---- how long a change takes to be honoured ------------------------------------------------------------------

  /** The event stores a set for the user that is out of date. */
  predicate StoresStale(s: State, event: Event, user: UserId) {
    var answer := AnswerOf(s, event);
    event.Store? && answer.Some? && answer.value.user == user && answer.value.permissions != s.tables.Granted(user)
  }

  /** Out-of-date sets cached for the user run out by the deadline. */
  predicate StaleUntil(s: State, user: UserId, deadline: Instant) {
    EntryFresh(s, user) || s.cache[user].expiresAt <= deadline
  }

  lemma {:induction false} StaleUntilStays(ttl: Duration, s: State, later: seq<Event>, user: UserId, deadline: Instant)
    requires NoTableChange(later) && StaleUntil(s, user, deadline)
    requires forall k :: 0 <= k < |later| && StoresStale(Run(ttl, s, later[..k]), later[k], user) ==>
               later[k].now + ttl <= deadline
    ensures Run(ttl, s, later).tables == s.tables && StaleUntil(Run(ttl, s, later), user, deadline)
  {
    if later != [] {
      var n := |later| - 1;
      forall k | 0 <= k < n
        ensures later[..n][..k] == later[..k]
      {
      }
      StaleUntilStays(ttl, s, later[..n], user, deadline);
      assert !later[n].SetTables?;
    }
  }

  /** A change of the tables is honoured without any Invalidate: once the deadline is past - ttl
      after the last store of a set read before the change, or the expiry of the entry cached
      then - every lookup answers the tables as they are. */
  lemma ChangeTakesEffectWithinTtl(ttl: Duration, s: State, later: seq<Event>, i: nat, user: UserId, deadline: Instant)
    requires i < |later| && NoTableChange(later) && StaleUntil(s, user, deadline)
    requires forall k :: 0 <= k < i && StoresStale(Run(ttl, s, later[..k]), later[k], user) ==>
               later[k].now + ttl <= deadline
    requires later[i].Lookup? && later[i].now > deadline
    ensures CurrentAt(ttl, s, later, i, user)
  {
    forall k | 0 <= k < i
      ensures later[..i][..k] == later[..k]
    {
    }
    StaleUntilStays(ttl, s, later[..i], user, deadline);
  }

  predicate StaleFlight(s: State, id: SessionId) {
    id in s.resolving && !IsFresh(s.tables, s.resolving[id])
  }

  /** Only resolutions that had queried before the change ever store an out-of-date set: none
      that starts, or first queries, after it does. */
  lemma {:induction false} OnlyOldFlightsAreStale(ttl: Duration, s: State, later: seq<Event>, id: SessionId)
    requires NoTableChange(later)
    ensures Run(ttl, s, later).tables == s.tables
    ensures StaleFlight(Run(ttl, s, later), id) ==>
              StaleFlight(s, id) && Run(ttl, s, later).resolving[id].user == s.resolving[id].user
  {
    if later != [] {
      var n := |later| - 1;
      OnlyOldFlightsAreStale(ttl, s, later[..n], id);
      assert !later[n].SetTables?;
    }
  }
}
