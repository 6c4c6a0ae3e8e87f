/** Employee-code allocation under an advisory lock: NextEmployeeCode and lockKey
    (backend/internal/repository/hrm_employee_repository.go) inside the transaction of Create
    (backend/internal/service/hrm_employee_service.go), with any number of hires interleaved
    statement by statement. */
module EmployeeCodes {
  import opened Wrappers

  type BusinessId = nat
  type SessionId = nat

  /** The largest BIGINT, and the largest int64. */
  const MAX_INT64: nat := 0x7FFF_FFFF_FFFF_FFFF

  // ---- decimal codes --------------------------------------------------------------------

  predicate IsDigit(c: char) { '0' <= c <= '9' }

  function DigitValue(c: char): nat
    requires IsDigit(c)
  {
    (c - '0') as nat
  }

  function DigitChar(d: nat): (c: char)
    requires d < 10
    ensures IsDigit(c) && DigitValue(c) == d
  {
    '0' + d as char
  }

  predicate AllDigits(s: string) {
    forall i :: 0 <= i < |s| ==> IsDigit(s[i])
  }

  /** employee_code ~ '^[0-9]+$' */
  predicate IsNumeric(code: string) {
    code != "" && AllDigits(code)
  }

  /** employee_code::BIGINT before the range check. */
  function Value(code: string): nat
    requires AllDigits(code)
  {
    if code == "" then 0 else Value(code[..|code| - 1]) * 10 + DigitValue(code[|code| - 1])
  }

  function Digits(n: nat): (s: string)
    ensures IsNumeric(s)
  {
    if n < 10 then [DigitChar(n)] else Digits(n / 10) + [DigitChar(n % 10)]
  }

  /** strconv.FormatInt(n, 10) */
  function FormatInt(n: int): string {
    if n < 0 then "-" + Digits(-n) else Digits(n)
  }

  lemma {:induction false} ValueOfDigits(n: nat)
    ensures Value(Digits(n)) == n
  {
    if n < 10 {
      assert Digits(n)[..0] == "";
    } else {
      ValueOfDigits(n / 10);
      assert Digits(n)[..|Digits(n)| - 1] == Digits(n / 10);
    }
  }

  /** Go's int64 addition of one: exact up to a multiple of 2^64, and within the range. */
  function NextInt64(n: nat): (next: int)
    requires n <= MAX_INT64
    ensures 0 - MAX_INT64 - 1 <= next <= MAX_INT64
    ensures next == n + 1 || next == n + 1 - 0x1_0000_0000_0000_0000
  {
    if n == MAX_INT64 then 0 - MAX_INT64 - 1 else n + 1
  }

  // ---- the table and the transactions on it ------------------------------------------------

  datatype Employee = Employee(businessId: BusinessId, code: string, deleted: bool)

  /** How far a hiring transaction has come. */
  datatype Session =
    | Begun(businessId: BusinessId)
    | Locked(businessId: BusinessId)
    | Allocated(businessId: BusinessId, code: string)
    | Inserted(businessId: BusinessId, code: string)
  {
    predicate HoldsLock() { !Begun? }
    predicate HasCode() { Allocated? || Inserted? }
  }

  /** Committed rows, open transactions, and the advisory locks held. */
  datatype Hiring = Hiring(rows: seq<Employee>, sessions: map<SessionId, Session>, locks: map<int, SessionId>)

  datatype Event =
    | Begin(session: SessionId, businessId: BusinessId)
    | TakeLock(session: SessionId)
    | ReadHighest(session: SessionId)
    | Insert(session: SessionId)
    | Commit(session: SessionId)
    | Rollback(session: SessionId)
    | SoftDelete(row: nat)

  /** Largest numeric code of the business, soft-deleted rows included. */
  function Highest(rows: seq<Employee>, businessId: BusinessId): Option<nat> {
    if rows == [] then None
    else
      var last := rows[|rows| - 1];
      var before := Highest(rows[..|rows| - 1], businessId);
      if last.businessId == businessId && IsNumeric(last.code)
         && (before.None? || before.value < Value(last.code))
      then Some(Value(last.code)) else before
  }

  /** COALESCE(MAX(...), 1000) + 1, or nothing when a code does not fit a BIGINT. */
  function NextCode(rows: seq<Employee>, businessId: BusinessId): Option<string> {
    var highest := Highest(rows, businessId).GetOr(1000);
    if highest > MAX_INT64 then None else Some(FormatInt(NextInt64(highest)))
  }

  /** The partial unique index on (business_id, employee_code). */
  predicate Taken(rows: seq<Employee>, businessId: BusinessId, code: string) {
    exists i :: 0 <= i < |rows| && rows[i] == Employee(businessId, code, false)
  }

  /** The transaction ends and its transaction-scoped lock with it. */
  function Ended(h: Hiring, session: SessionId): Hiring {
    h.(sessions := h.sessions - {session},
       locks := map key | key in h.locks && h.locks[key] != session :: h.locks[key])
  }

  /** One statement. A statement that is not enabled - a lock that is not free yet, a session
      that is elsewhere - changes nothing; one that fails ends its transaction. */
  function Step(lockKey: BusinessId -> int, h: Hiring, event: Event): Hiring {
    match event
    case Begin(s, b) =>
      if s in h.sessions then h else h.(sessions := h.sessions[s := Begun(b)])
    case TakeLock(s) =>
      if s in h.sessions && h.sessions[s].Begun? && lockKey(h.sessions[s].businessId) !in h.locks then
        var b := h.sessions[s].businessId;
        h.(sessions := h.sessions[s := Locked(b)], locks := h.locks[lockKey(b) := s])
      else h
    case ReadHighest(s) =>
      if s in h.sessions && h.sessions[s].Locked? then
        var b := h.sessions[s].businessId;
        (match NextCode(h.rows, b)
         case Some(code) => h.(sessions := h.sessions[s := Allocated(b, code)])
         case None => Ended(h, s))
      else h
    case Insert(s) =>
      if s in h.sessions && h.sessions[s].Allocated? then
        var b, code := h.sessions[s].businessId, h.sessions[s].code;
        if Taken(h.rows, b, code) then Ended(h, s)
        else h.(sessions := h.sessions[s := Inserted(b, code)])
      else h
    case Commit(s) =>
      if s in h.sessions && h.sessions[s].Inserted? then
        Ended(h.(rows := h.rows + [Employee(h.sessions[s].businessId, h.sessions[s].code, false)]), s)
      else h
    case Rollback(s) =>
      if s in h.sessions then Ended(h, s) else h
    case SoftDelete(i) =>
      if i < |h.rows| then h.(rows := h.rows[i := h.rows[i].(deleted := true)]) else h
  }

  function Run(lockKey: BusinessId -> int, h: Hiring, events: seq<Event>): Hiring {
    if events == [] then h
    else Step(lockKey, Run(lockKey, h, events[..|events| - 1]), events[|events| - 1])
  }

  // ---- the repository ------------------------------------------------------------------------

  class EmployeeRepository {
    var rows: seq<Employee>
    var sessions: map<SessionId, Session>
    var locks: map<int, SessionId>
    const lockKey: BusinessId -> int

    constructor (rows: seq<Employee>, lockKey: BusinessId -> int)
      ensures State() == Hiring(rows, map[], map[]) && this.lockKey == lockKey
    {
      this.rows, this.lockKey := rows, lockKey;
      sessions, locks := map[], map[];
    }

    function State(): Hiring
      reads this
    {
      Hiring(rows, sessions, locks)
    }

    method Begin(session: SessionId, businessId: BusinessId)
      modifies this
      ensures State() == Step(lockKey, old(State()), Event.Begin(session, businessId))
    {
      if session !in sessions {
        sessions := sessions[session := Begun(businessId)];
      }
    }

    /** pg_advisory_xact_lock; a session that is not granted the lock waits and asks again. */
    method TakeLock(session: SessionId) returns (granted: bool)
      requires session in sessions && sessions[session].Begun?
      modifies this
      ensures State() == Step(lockKey, old(State()), Event.TakeLock(session))
      ensures granted <==> lockKey(old(sessions)[session].businessId) !in old(locks)
    {
      var b := sessions[session].businessId;
      granted := lockKey(b) !in locks;
      if granted {
        sessions, locks := sessions[session := Locked(b)], locks[lockKey(b) := session];
      }
    }

    /** The MAX over the numeric codes, and the code after it. */
    method ReadNextCode(session: SessionId) returns (code: Option<string>)
      requires session in sessions && sessions[session].Locked?
      modifies this
      ensures State() == Step(lockKey, old(State()), ReadHighest(session))
      ensures code == NextCode(old(rows), old(sessions)[session].businessId)
    {
      var b := sessions[session].businessId;
      var found: Option<nat> := None;
      for i := 0 to |rows|
        invariant found == Highest(rows[..i], b)
      {
        assert rows[..i + 1][..i] == rows[..i];
        if rows[i].businessId == b && IsNumeric(rows[i].code) {
          var value := Value(rows[i].code);
          if found.None? || found.value < value {
            found := Some(value);
          }
        }
      }
      assert rows[..|rows|] == rows;
      var highest := found.GetOr(1000);
      if highest > MAX_INT64 {
        EndTransaction(session);
        return None;
      }
      code := Some(FormatInt(NextInt64(highest)));
      sessions := sessions[session := Allocated(b, code.value)];
    }

    method InsertEmployee(session: SessionId) returns (ok: bool)
      requires session in sessions && sessions[session].Allocated?
      modifies this
      ensures State() == Step(lockKey, old(State()), Insert(session))
      ensures ok <==> !Taken(old(rows), old(sessions)[session].businessId, old(sessions)[session].code)
    {
      var b, code := sessions[session].businessId, sessions[session].code;
      ok := !Taken(rows, b, code);
      if ok {
        sessions := sessions[session := Inserted(b, code)];
      } else {
        EndTransaction(session);
      }
    }

    method CommitHire(session: SessionId)
      requires session in sessions && sessions[session].Inserted?
      modifies this
      ensures State() == Step(lockKey, old(State()), Commit(session))
    {
      rows := rows + [Employee(sessions[session].businessId, sessions[session].code, false)];
      EndTransaction(session);
    }

    method EndTransaction(session: SessionId)
      modifies this
      ensures State() == Ended(old(State()), session)
    {
      sessions := sessions - {session};
      locks := map key | key in locks && locks[key] != session :: locks[key];
    }

    method Delete(row: nat)
      modifies this
      ensures State() == Step(lockKey, old(State()), SoftDelete(row))
    {
      if row < |rows| {
        rows := rows[row := rows[row].(deleted := true)];
      }
    }
  }

  // ---- one allocation --------------------------------------------------------------------------

  /** The code is numeric, larger than every numeric code of the business and different, as a
      string, from every code it ever stored. */
  predicate Fresh(rows: seq<Employee>, businessId: BusinessId, code: string) {
    && IsNumeric(code)
    && forall i :: 0 <= i < |rows| && rows[i].businessId == businessId ==>
         rows[i].code != code && (IsNumeric(rows[i].code) ==> Value(rows[i].code) < Value(code))
  }

  lemma {:induction false} HighestIsMaximum(rows: seq<Employee>, businessId: BusinessId)
    ensures forall i :: 0 <= i < |rows| && rows[i].businessId == businessId && IsNumeric(rows[i].code) ==>
              Highest(rows, businessId).Some? && Value(rows[i].code) <= Highest(rows, businessId).value
    ensures Highest(rows, businessId).Some? ==>
              exists i :: 0 <= i < |rows| && rows[i].businessId == businessId && IsNumeric(rows[i].code)
                          && Value(rows[i].code) == Highest(rows, businessId).value
  {
    if rows != [] {
      var n := |rows| - 1;
      HighestIsMaximum(rows[..n], businessId);
      assert forall i :: 0 <= i < n ==> rows[i] == rows[..n][i];
    }
  }

  /** An allocation is fresh exactly when the largest BIGINT is not yet taken; after it the
      addition wraps round to a negative, non-numeric code. */
  lemma AllocationIsFreshIff(rows: seq<Employee>, businessId: BusinessId)
    requires NextCode(rows, businessId).Some?
    ensures Fresh(rows, businessId, NextCode(rows, businessId).value)
            <==> Highest(rows, businessId) != Some(MAX_INT64)
  {
    HighestIsMaximum(rows, businessId);
    var highest := Highest(rows, businessId).GetOr(1000);
    if highest < MAX_INT64 {
      ValueOfDigits(highest + 1);
    } else {
      assert NextCode(rows, businessId).value[0] == '-';
    }
  }

  /** A shop without numeric codes hires its first employee as 1001. */
  lemma FirstCodeIs1001(rows: seq<Employee>, businessId: BusinessId)
    requires forall i :: 0 <= i < |rows| && rows[i].businessId == businessId ==> !IsNumeric(rows[i].code)
    ensures NextCode(rows, businessId) == Some("1001")
  {
    HighestIsMaximum(rows, businessId);
    assert Digits(1) == "1" && Digits(10) == "10" && Digits(100) == "100" && Digits(1001) == "1001";
  }

  // ---- every interleaving --------------------------------------------------------------------------

  /** Whoever is past the lock holds it, and the code it carries is still the next one. */
  predicate Valid(lockKey: BusinessId -> int, h: Hiring) {
    && (forall s :: s in h.sessions && h.sessions[s].HoldsLock() ==>
          lockKey(h.sessions[s].businessId) in h.locks && h.locks[lockKey(h.sessions[s].businessId)] == s)
    && (forall s :: s in h.sessions && h.sessions[s].HasCode() ==>
          NextCode(h.rows, h.sessions[s].businessId) == Some(h.sessions[s].code))
  }

  lemma {:induction false} HighestIgnores(before: seq<Employee>, after: seq<Employee>, businessId: BusinessId)
    requires |before| == |after|
    requires forall i :: 0 <= i < |before| ==>
               before[i].businessId == after[i].businessId && before[i].code == after[i].code
    ensures Highest(before, businessId) == Highest(after, businessId)
  {
    if before != [] {
      HighestIgnores(before[..|before| - 1], after[..|after| - 1], businessId);
    }
  }

  lemma HighestOfOther(rows: seq<Employee>, row: Employee, businessId: BusinessId)
    requires row.businessId != businessId
    ensures Highest(rows + [row], businessId) == Highest(rows, businessId)
  {
    assert (rows + [row])[..|rows|] == rows;
  }

  lemma StepKeepsValid(lockKey: BusinessId -> int, h: Hiring, event: Event)
    requires Valid(lockKey, h)
    ensures Valid(lockKey, Step(lockKey, h, event))
  {
    match event
    case SoftDelete(i) =>
      if i < |h.rows| {
        var after := h.rows[i := h.rows[i].(deleted := true)];
        forall b: BusinessId
          ensures NextCode(after, b) == NextCode(h.rows, b)
        {
          HighestIgnores(h.rows, after, b);
        }
      }
    case Commit(s) =>
      if s in h.sessions && h.sessions[s].Inserted? {
        var row := Employee(h.sessions[s].businessId, h.sessions[s].code, false);
        forall b: BusinessId | b != row.businessId
          ensures NextCode(h.rows + [row], b) == NextCode(h.rows, b)
        {
          HighestOfOther(h.rows, row, b);
        }
      }
    case _ =>
  }

  lemma {:induction false} RunKeepsValid(lockKey: BusinessId -> int, h: Hiring, events: seq<Event>)
    requires Valid(lockKey, h)
    ensures Valid(lockKey, Run(lockKey, h, events))
  {
    if events != [] {
      RunKeepsValid(lockKey, h, events[..|events| - 1]);
      StepKeepsValid(lockKey, Run(lockKey, h, events[..|events| - 1]), events[|events| - 1]);
    }
  }

  /** Mutual exclusion: two hires of one business are never both past the lock - nor two of
      different businesses whose ids fold to the same key. */
  lemma OneHireAtATime(lockKey: BusinessId -> int, h: Hiring, events: seq<Event>, s: SessionId, t: SessionId)
    requires h.sessions == map[]
    ensures var after := Run(lockKey, h, events);
            s in after.sessions && t in after.sessions && s != t
            && after.sessions[s].HoldsLock() && after.sessions[t].HoldsLock() ==>
              lockKey(after.sessions[s].businessId) != lockKey(after.sessions[t].businessId)
  {
    RunKeepsValid(lockKey, h, events);
  }

  /** No business has stored the largest BIGINT. */
  predicate NotExhausted(rows: seq<Employee>) {
    forall i :: 0 <= i < |rows| && IsNumeric(rows[i].code) ==> Value(rows[i].code) != MAX_INT64
  }

  /** Rows are appended and flagged, never removed or recoded. */
  predicate Extends(before: seq<Employee>, after: seq<Employee>) {
    && |before| <= |after|
    && forall i :: 0 <= i < |before| ==>
         before[i].businessId == after[i].businessId && before[i].code == after[i].code
  }

  lemma {:induction false} RunExtends(lockKey: BusinessId -> int, h: Hiring, events: seq<Event>)
    ensures Extends(h.rows, Run(lockKey, h, events).rows)
  {
    if events != [] {
      RunExtends(lockKey, h, events[..|events| - 1]);
    }
  }

  /** Row k carries a code no earlier row of its business carries, and a larger number. */
  predicate FreshAt(rows: seq<Employee>, k: nat)
    requires k < |rows|
  {
    Fresh(rows[..k], rows[k].businessId, rows[k].code)
  }

  lemma FreshIgnoresFlags(before: seq<Employee>, after: seq<Employee>, k: nat)
    requires k < |before| && Extends(before, after) && FreshAt(before, k)
    ensures FreshAt(after, k)
  {
    assert forall i :: 0 <= i < k ==> after[..k][i].businessId == before[..k][i].businessId
                                      && after[..k][i].code == before[..k][i].code;
  }

  /** Every interleaving of hires - each locking, reading the maximum, inserting, and then
      committing or rolling back - gives codes that are strictly increasing in commit order
      within a business and differ, as strings, from every code ever stored there: deleted,
      non-numeric and zero-padded ones included. Businesses may share a lock key. */
  lemma {:induction false} CodesAreUniqueAndIncreasing(lockKey: BusinessId -> int, h: Hiring, events: seq<Event>)
    requires h.sessions == map[]
    requires NotExhausted(Run(lockKey, h, events).rows)
    ensures var rows := Run(lockKey, h, events).rows;
            |h.rows| <= |rows| && forall k :: |h.rows| <= k < |rows| ==> FreshAt(rows, k)
  {
    RunExtends(lockKey, h, events);
    if events != [] {
      var front, event := events[..|events| - 1], events[|events| - 1];
      var before := Run(lockKey, h, front);
      var after := Step(lockKey, before, event);
      assert [event][..0] == [];
      RunExtends(lockKey, before, [event]);
      assert Run(lockKey, before, [event]) == after;
      assert NotExhausted(before.rows) by {
        forall i | 0 <= i < |before.rows| && IsNumeric(before.rows[i].code)
          ensures Value(before.rows[i].code) != MAX_INT64
        {
          assert after.rows[i].code == before.rows[i].code;
        }
      }
      CodesAreUniqueAndIncreasing(lockKey, h, front);
      forall k | |h.rows| <= k < |after.rows|
        ensures FreshAt(after.rows, k)
      {
        if k < |before.rows| {
          FreshIgnoresFlags(before.rows, after.rows, k);
        } else {
          RunKeepsValid(lockKey, h, front);
          CommitIsFresh(lockKey, before, event);
        }
      }
    }
  }

  lemma CommitIsFresh(lockKey: BusinessId -> int, h: Hiring, event: Event)
    requires Valid(lockKey, h) && NotExhausted(h.rows)
    requires |Step(lockKey, h, event).rows| > |h.rows|
    ensures |Step(lockKey, h, event).rows| == |h.rows| + 1
    ensures FreshAt(Step(lockKey, h, event).rows, |h.rows|)
  {
    var rows := Step(lockKey, h, event).rows;
    var b := rows[|h.rows|].businessId;
    assert rows[..|h.rows|] == h.rows;
    HighestIsMaximum(h.rows, b);
    AllocationIsFreshIff(h.rows, b);
  }

  // ---- what a hire leaves behind ---------------------------------------------------------------------

  lemma StepRows(lockKey: BusinessId -> int, h: Hiring, event: Event)
    ensures var after := Step(lockKey, h, event).rows;
            if event.Commit? && event.session in h.sessions && h.sessions[event.session].Inserted?
            then after == h.rows + [Employee(h.sessions[event.session].businessId,
                                             h.sessions[event.session].code, false)]
            else if event.SoftDelete? && event.row < |h.rows|
            then after == h.rows[event.row := h.rows[event.row].(deleted := true)]
            else after == h.rows
  {
  }

  /** The row was deleted at some point after event c. */
  predicate DeletedSince(events: seq<Event>, c: nat, k: nat) {
    exists d :: c < d < |events| && events[d] == SoftDelete(k)
  }

  /** Over every interleaving: each row that was not there at the start was committed at some event
      c by a session that had inserted just this code for just this business, and is marked deleted
      exactly when a deletion of it came later. */
  lemma {:induction false} EveryRowWasHired(lockKey: BusinessId -> int, h: Hiring, events: seq<Event>, k: nat)
    returns (c: nat)
    requires |h.rows| <= k < |Run(lockKey, h, events).rows|
    ensures c < |events| && events[c].Commit? && events[c].session in Run(lockKey, h, events[..c]).sessions
    ensures var row, before := Run(lockKey, h, events).rows[k], Run(lockKey, h, events[..c]);
            && |before.rows| == k
            && before.sessions[events[c].session] == Inserted(row.businessId, row.code)
            && (row.deleted <==> DeletedSince(events, c, k))
  {
    var n := |events| - 1;
    var before := Run(lockKey, h, events[..n]);
    StepRows(lockKey, before, events[n]);
    if k < |before.rows| {
      c := EveryRowWasHired(lockKey, h, events[..n], k);
      assert events[..n][..c] == events[..c];
      DeletedLater(events, c, k);
    } else {
      c := n;
    }
  }

  lemma DeletedLater(events: seq<Event>, c: nat, k: nat)
    requires c < |events| - 1
    ensures DeletedSince(events, c, k) <==>
            DeletedSince(events[..|events| - 1], c, k) || events[|events| - 1] == SoftDelete(k)
  {
    var n := |events| - 1;
    if d :| c < d < |events| && events[d] == SoftDelete(k) {
      assert d < n ==> events[..n][d] == SoftDelete(k);
    }
    if d :| c < d < n && events[..n][d] == SoftDelete(k) {
      assert events[d] == SoftDelete(k);
    }
  }

  lemma EndedFrees(h: Hiring, s: SessionId, session: Session, key: int)
    requires s !in h.sessions && key !in h.locks && forall k | k in h.locks :: h.locks[k] != s
    ensures Ended(h.(sessions := h.sessions[s := session], locks := h.locks[key := s]), s) == h
  {
    var after := Ended(h.(sessions := h.sessions[s := session], locks := h.locks[key := s]), s);
    assert after.sessions == h.sessions;
    forall k
      ensures k in after.locks <==> k in h.locks
    {
    }
    assert after.locks == h.locks;
  }

  /** A hire that nothing interrupts or fails, while its lock is free, stores one employee under the
      next code and gives the lock back. */
  lemma UninterruptedHire(lockKey: BusinessId -> int, h: Hiring, s: SessionId, b: BusinessId)
    requires s !in h.sessions && lockKey(b) !in h.locks && forall key | key in h.locks :: h.locks[key] != s
    requires NextCode(h.rows, b).Some? && !Taken(h.rows, b, NextCode(h.rows, b).value)
    ensures var locked := Step(lockKey, Step(lockKey, h, Begin(s, b)), TakeLock(s));
            var inserted := Step(lockKey, Step(lockKey, locked, ReadHighest(s)), Insert(s));
            Step(lockKey, inserted, Commit(s))
            == h.(rows := h.rows + [Employee(b, NextCode(h.rows, b).value, false)])
  {
    var code := NextCode(h.rows, b).value;
    var locked := Step(lockKey, Step(lockKey, h, Begin(s, b)), TakeLock(s));
    assert locked == h.(sessions := h.sessions[s := Locked(b)], locks := h.locks[lockKey(b) := s]);
    var coded := Step(lockKey, locked, ReadHighest(s));
    assert coded.sessions == h.sessions[s := Allocated(b, code)];
    var inserted := Step(lockKey, coded, Insert(s));
    assert inserted.sessions == h.sessions[s := Inserted(b, code)];
    EndedFrees(h.(rows := h.rows + [Employee(b, code, false)]), s, Inserted(b, code), lockKey(b));
  }

  /** A transaction that is rolled back leaves no row, no session and no lock of its own. */
  lemma RollbackLeavesNothing(lockKey: BusinessId -> int, h: Hiring, s: SessionId)
    requires s in h.sessions
    ensures var after := Step(lockKey, h, Rollback(s));
            && after.rows == h.rows && after.sessions == h.sessions - {s}
            && forall key :: key in after.locks <==> key in h.locks && h.locks[key] != s
  {
  }

  /** There is no next code exactly when the business has stored a number that is no BIGINT. */
  lemma NoNextCodeIff(rows: seq<Employee>, businessId: BusinessId)
    ensures NextCode(rows, businessId).None? <==>
            exists i :: 0 <= i < |rows| && rows[i].businessId == businessId && IsNumeric(rows[i].code)
                        && Value(rows[i].code) > MAX_INT64
  {
    HighestIsMaximum(rows, businessId);
  }

  /** An insert is refused, and its transaction ends, exactly when an employee of the business who
      is not deleted has the code. */
  lemma InsertIs(lockKey: BusinessId -> int, h: Hiring, s: SessionId)
    requires s in h.sessions && h.sessions[s].Allocated?
    ensures var b, code := h.sessions[s].businessId, h.sessions[s].code;
            var after := Step(lockKey, h, Insert(s));
            if exists i :: 0 <= i < |h.rows| && h.rows[i].businessId == b && h.rows[i].code == code
                           && !h.rows[i].deleted
            then after.rows == h.rows && s !in after.sessions
            else after == h.(sessions := h.sessions[s := Inserted(b, code)])
  {
    var b, code := h.sessions[s].businessId, h.sessions[s].code;
    if i :| 0 <= i < |h.rows| && h.rows[i].businessId == b && h.rows[i].code == code && !h.rows[i].deleted {
      assert h.rows[i] == Employee(b, code, false);
    }
  }

  /** In no interleaving is an allocated code refused by the index, unless the largest BIGINT is taken. */
  lemma AllocatedCodeIsNeverTaken(lockKey: BusinessId -> int, h: Hiring, events: seq<Event>, s: SessionId)
    requires h.sessions == map[] && NotExhausted(Run(lockKey, h, events).rows)
    requires s in Run(lockKey, h, events).sessions && Run(lockKey, h, events).sessions[s].Allocated?
    ensures s in Step(lockKey, Run(lockKey, h, events), Insert(s)).sessions
  {
    var now := Run(lockKey, h, events);
    RunKeepsValid(lockKey, h, events);
    HighestIsMaximum(now.rows, now.sessions[s].businessId);
    AllocationIsFreshIff(now.rows, now.sessions[s].businessId);
    InsertIs(lockKey, now, s);
  }
}
