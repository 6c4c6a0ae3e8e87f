/** Leave calls that overlap in time. Nothing locks between the checks of a call and its write
    (backend/internal/service/hrm_leave_service.go), so here every call is two steps: it reads and
    checks, and later it writes what it then decided. The lemmas say exactly which interleavings
    break what the calls keep one at a time. */
module LeaveRaces {
  import opened Calendar
  import opened Leave
  import opened LeaveSafety
  import opened Shifts
  import opened Wrappers

  type SessionId = nat

  /** What a call that passed its checks will write: a new request, with the number of requests
      there were when it checked, or the whole of an existing row. */
  datatype Write =
    | Append(row: LeaveRequest, checkedAt: nat)
    | Put(id: nat, row: LeaveRequest)

  datatype State = State(rows: seq<LeaveRequest>, open: map<SessionId, Write>)

  datatype Event =
    | Begin(session: SessionId, call: Call)
    | Finish(session: SessionId)

  function Prepared(rows: seq<LeaveRequest>, call: Call): Option<Write> {
    match call
    case Request(env, application) =>
      (match Filed(env, rows, application)
       case Success(row) => Some(Append(row, |rows|))
       case Failure(_) => None)
    case Approve(env, id, review) => PutOf(id, Decided(env, rows, id, Approved, review))
    case Reject(env, id, review) => PutOf(id, Decided(env, rows, id, Rejected, review))
    case Cancel(id) => PutOf(id, Withdrawn(rows, id))
  }

  function PutOf(id: nat, decided: Result<LeaveRequest, Error>): Option<Write> {
    if decided.Success? then Some(Put(id, decided.value)) else None
  }

  function Written(rows: seq<LeaveRequest>, write: Write): seq<LeaveRequest> {
    match write
    case Append(row, _) => rows + [row]
    case Put(id, row) => if id < |rows| then rows[id := row] else rows
  }

  function Step(s: State, event: Event): State {
    match event
    case Begin(session, call) =>
      var write := Prepared(s.rows, call);
      if session in s.open || write.None? then s else s.(open := s.open[session := write.value])
    case Finish(session) =>
      if session in s.open then State(Written(s.rows, s.open[session]), s.open - {session}) else s
  }

  function RunRaces(events: seq<Event>): State {
    if events == [] then State([], map[]) else Step(RunRaces(events[..|events| - 1]), events[|events| - 1])
  }

  /** The state before event k. */
  function At(events: seq<Event>, k: nat): State
    requires k <= |events|
  {
    RunRaces(events[..k])
  }

  lemma NextState(events: seq<Event>, k: nat)
    requires k < |events|
    ensures At(events, k + 1) == Step(At(events, k), events[k])
  {
    assert events[..k + 1][..k] == events[..k];
  }

  /** A call that nothing interrupts does what the one-step call does. */
  lemma UninterruptedIsAtomic(s: State, session: SessionId, call: Call)
    requires session !in s.open
    ensures Step(Step(s, Begin(session, call)), Finish(session)) == State(AfterCall(s.rows, call), s.open)
  {
    var after := Step(Step(s, Begin(session, call)), Finish(session));
    if Prepared(s.rows, call).Some? {
      assert s.open[session := Prepared(s.rows, call).value] - {session} == s.open;
    }
  }

  // ---- lost decisions ------------------------------------------------------------------------------

  /** The event overwrites a request that was decided after the call had read it as pending. */
  predicate LosesDecision(s: State, event: Event) {
    && event.Finish? && event.session in s.open && s.open[event.session].Put?
    && var write := s.open[event.session];
    && write.id < |s.rows| && s.rows[write.id].IsDecided() && s.rows[write.id] != write.row
  }

  /** Requests stay, and decided ones stay as they are. */
  predicate KeepsDecisions(before: seq<LeaveRequest>, after: seq<LeaveRequest>) {
    && |before| <= |after|
    && forall id :: 0 <= id < |before| && before[id].IsDecided() ==> after[id] == before[id]
  }

  lemma StepKeepsDecisionsIff(s: State, event: Event)
    ensures KeepsDecisions(s.rows, Step(s, event).rows) <==> !LosesDecision(s, event)
  {
    if LosesDecision(s, event) {
      var write := s.open[event.session];
      assert Step(s, event).rows[write.id] == write.row;
    }
  }

  predicate NoLostDecisions(events: seq<Event>) {
    forall k :: 0 <= k < |events| ==> !LosesDecision(At(events, k), events[k])
  }

  lemma KeptOneMore(earlier: seq<LeaveRequest>, s: State, event: Event)
    requires KeepsDecisions(earlier, s.rows) && !LosesDecision(s, event)
    ensures KeepsDecisions(earlier, Step(s, event).rows)
  {
    StepKeepsDecisionsIff(s, event);
    var after := Step(s, event).rows;
    forall id | 0 <= id < |earlier| && earlier[id].IsDecided()
      ensures after[id] == earlier[id]
    {
      assert s.rows[id] == earlier[id];
    }
  }

  lemma {:induction false} DecisionsKeptFrom(events: seq<Event>, k: nat, m: nat)
    requires k <= m <= |events| && NoLostDecisions(events)
    ensures KeepsDecisions(At(events, k).rows, At(events, m).rows)
    decreases m
  {
    if k == m {
      assert KeepsDecisions(At(events, k).rows, At(events, k).rows);
    } else {
      DecisionsKeptFrom(events, k, m - 1);
      var earlier, s := At(events, k).rows, At(events, m - 1);
      assert !LosesDecision(s, events[m - 1]);
      KeptOneMore(earlier, s, events[m - 1]);
      assert KeepsDecisions(earlier, Step(s, events[m - 1]).rows);
      NextState(events, m - 1);
    }
  }

  /** In an interleaving of calls every decision is final, from every moment to every later one,
      exactly when no call writes over a request that was decided after the call had read it. */
  lemma DecisionsAreFinalIff(events: seq<Event>)
    ensures (forall k: nat, m: nat :: k <= m <= |events| ==> KeepsDecisions(At(events, k).rows, At(events, m).rows))
            <==> NoLostDecisions(events)
  {
    if NoLostDecisions(events) {
      forall k: nat, m: nat | k <= m <= |events|
        ensures KeepsDecisions(At(events, k).rows, At(events, m).rows)
      {
        DecisionsKeptFrom(events, k, m);
      }
    } else {
      var k: nat :| k < |events| && LosesDecision(At(events, k), events[k]);
      NextState(events, k);
      StepKeepsDecisionsIff(At(events, k), events[k]);
      assert !KeepsDecisions(At(events, k).rows, At(events, k + 1).rows);
    }
  }

  // ---- double booking ----------------------------------------------------------------------------------

  /** The event files a request after a clashing one was filed since its check and is still live. */
  predicate DoubleBooks(s: State, event: Event) {
    && event.Finish? && event.session in s.open && s.open[event.session].Append?
    && var write := s.open[event.session];
    && exists i :: write.checkedAt <= i < |s.rows| && Clash(s.rows[i], write.row)
  }

  predicate NoDoubleBooking(events: seq<Event>) {
    forall k :: 0 <= k < |events| ==> !DoubleBooks(At(events, k), events[k])
  }

  /** A request about to be filed clashes with none it was checked against; a row about to be
      written is the same application as the stored one. */
  predicate WriteHolds(rows: seq<LeaveRequest>, write: Write) {
    match write
    case Append(row, checkedAt) =>
      && SoundRow(row) && checkedAt <= |rows|
      && forall i :: 0 <= i < checkedAt ==> !Clash(rows[i], row)
    case Put(id, row) => id < |rows| && SameApplication(rows[id], row)
  }

  predicate OpenHold(s: State) {
    forall session | session in s.open :: WriteHolds(s.rows, s.open[session])
  }

  lemma PreparedHolds(rows: seq<LeaveRequest>, call: Call)
    requires Prepared(rows, call).Some?
    ensures WriteHolds(rows, Prepared(rows, call).value)
  {
    if call.Request? {
      FiledIsSound(call.env, rows, call.application);
    }
  }

  /** Writing one row leaves the other open writes as good as they were, and the table sound
      unless it double-books. */
  lemma WriteKeepsHolding(rows: seq<LeaveRequest>, write: Write, other: Write)
    requires WriteHolds(rows, write) && WriteHolds(rows, other)
    requires write.Put? ==> rows[write.id].IsDecided() ==> rows[write.id] == write.row
    ensures WriteHolds(Written(rows, write), other)
  {
    if write.Put? && other.Append? {
      var after := Written(rows, write);
      forall i | 0 <= i < other.checkedAt
        ensures !Clash(after[i], other.row)
      {
        assert !Clash(rows[i], other.row);
      }
    }
  }

  lemma AppendSoundIff(rows: seq<LeaveRequest>, row: LeaveRequest, checkedAt: nat)
    requires Sound(rows) && WriteHolds(rows, Append(row, checkedAt))
    ensures Sound(rows + [row]) <==> !exists i :: checkedAt <= i < |rows| && Clash(rows[i], row)
  {
    var after := rows + [row];
    if i :| checkedAt <= i < |rows| && Clash(rows[i], row) {
      assert Clash(after[i], after[|rows|]);
    }
  }

  lemma PutKeepsSound(rows: seq<LeaveRequest>, id: nat, row: LeaveRequest)
    requires Sound(rows) && WriteHolds(rows, Put(id, row))
    requires rows[id].IsDecided() ==> rows[id] == row
    ensures Sound(rows[id := row])
  {
    var after := rows[id := row];
    forall i, k | 0 <= i < k < |after|
      ensures !Clash(after[i], after[k])
    {
      assert !Clash(rows[i], rows[k]);
    }
  }

  lemma StepSoundIff(s: State, event: Event)
    requires Sound(s.rows) && OpenHold(s) && !LosesDecision(s, event)
    ensures OpenHold(Step(s, event))
    ensures Sound(Step(s, event).rows) <==> !DoubleBooks(s, event)
  {
    match event
    case Begin(session, call) =>
      if Prepared(s.rows, call).Some? {
        PreparedHolds(s.rows, call);
      }
    case Finish(session) =>
      if session in s.open {
        var write := s.open[session];
        forall other | other in s.open && other != session
          ensures WriteHolds(Written(s.rows, write), s.open[other])
        {
          WriteKeepsHolding(s.rows, write, s.open[other]);
        }
        match write
        case Append(row, checkedAt) => AppendSoundIff(s.rows, row, checkedAt);
        case Put(id, row) => PutKeepsSound(s.rows, id, row);
      }
  }

  lemma {:induction false} SoundSoFar(events: seq<Event>, k: nat)
    requires k <= |events| && NoLostDecisions(events)
    requires forall i :: 0 <= i < k ==> !DoubleBooks(At(events, i), events[i])
    ensures Sound(At(events, k).rows) && OpenHold(At(events, k))
  {
    if k > 0 {
      SoundSoFar(events, k - 1);
      NextState(events, k - 1);
      StepSoundIff(At(events, k - 1), events[k - 1]);
    }
  }

  lemma {:induction false} FirstDoubleBooking(events: seq<Event>, n: nat) returns (k: nat)
    requires n <= |events| && exists i :: 0 <= i < n && DoubleBooks(At(events, i), events[i])
    ensures k < n && DoubleBooks(At(events, k), events[k])
    ensures forall i :: 0 <= i < k ==> !DoubleBooks(At(events, i), events[i])
  {
    if exists i :: 0 <= i < n - 1 && DoubleBooks(At(events, i), events[i]) {
      k := FirstDoubleBooking(events, n - 1);
    } else {
      k := n - 1;
    }
  }

  /** In an interleaving without lost decisions the leave calendar is safe at every moment - no
      two live requests of an employee share a day - exactly when no request is filed after a
      clashing one was filed since its check and is still live. */
  lemma CalendarIsSafeIff(events: seq<Event>)
    requires NoLostDecisions(events)
    ensures (forall k: nat :: k <= |events| ==> Sound(At(events, k).rows)) <==> NoDoubleBooking(events)
  {
    if NoDoubleBooking(events) {
      forall k: nat | k <= |events|
        ensures Sound(At(events, k).rows)
      {
        SoundSoFar(events, k);
      }
    } else {
      var k := FirstDoubleBooking(events, |events|);
      SoundSoFar(events, k);
      NextState(events, k);
      StepSoundIff(At(events, k), events[k]);
      assert !Sound(At(events, k + 1).rows);
    }
  }

  // ---- quotas -------------------------------------------------------------------------------------------

  /** Days an employee may take of a type in a year. */
  datatype Entitlement = Entitlement(employeeId: EmployeeId, leaveTypeId: LeaveTypeId, year: int, quota: real)

  predicate Draws(row: LeaveRequest, en: Entitlement) {
    IsApprovedIn(row, en.employeeId, {en.leaveTypeId}, CalendarYear(en.year))
  }

  function Taken(rows: seq<LeaveRequest>, en: Entitlement): real {
    ApprovedDays(rows, en.employeeId, {en.leaveTypeId}, CalendarYear(en.year))
  }

  /** The event writes an approval that no longer fits: the guard of assertBalance, asked again at
      the write, would refuse it. */
  predicate Overspends(s: State, event: Event, en: Entitlement) {
    && event.Finish? && event.session in s.open && s.open[event.session].Put?
    && var write := s.open[event.session];
    && write.id < |s.rows| && Draws(write.row, en) && !Draws(s.rows[write.id], en)
    && Taken(s.rows, en) + write.row.days > en.quota
  }

  predicate NoOverspending(events: seq<Event>, en: Entitlement) {
    forall k :: 0 <= k < |events| ==> !Overspends(At(events, k), events[k], en)
  }

  /** Requests take days; a new one is pending; a row about to be written is the application that
      is stored. This much holds whatever interleaves. */
  predicate WriteFits(rows: seq<LeaveRequest>, write: Write) {
    match write
    case Append(row, _) => row.days > 0.0 && row.status == Pending
    case Put(id, row) => id < |rows| && SameApplication(rows[id], row)
  }

  predicate Fits(s: State) {
    && (forall i :: 0 <= i < |s.rows| ==> s.rows[i].days > 0.0)
    && (forall session | session in s.open :: WriteFits(s.rows, s.open[session]))
  }

  lemma StepKeepsFits(s: State, event: Event)
    requires Fits(s)
    ensures Fits(Step(s, event))
  {
    if event.Begin? && Prepared(s.rows, event.call).Some? {
      if event.call.Request? {
        FiledIsSound(event.call.env, s.rows, event.call.application);
      }
    }
  }

  lemma {:induction false} FitsAt(events: seq<Event>, k: nat)
    requires k <= |events|
    ensures Fits(At(events, k))
  {
    if k > 0 {
      FitsAt(events, k - 1);
      NextState(events, k - 1);
      StepKeepsFits(At(events, k - 1), events[k - 1]);
    }
  }

  /** From within the quota, a step leaves the quota exactly when it overspends. */
  lemma StepWithinQuotaIff(s: State, event: Event, en: Entitlement)
    requires Fits(s) && Taken(s.rows, en) <= en.quota
    ensures Taken(Step(s, event).rows, en) <= en.quota <==> !Overspends(s, event, en)
  {
    if event.Finish? && event.session in s.open {
      var types, window := {en.leaveTypeId}, CalendarYear(en.year);
      match s.open[event.session]
      case Append(row, _) =>
        assert WriteFits(s.rows, s.open[event.session]);
        assert (s.rows + [row])[..|s.rows|] == s.rows;
      case Put(id, row) =>
        assert WriteFits(s.rows, s.open[event.session]);
        assert s.rows[id].days > 0.0;
        ApprovedDaysAfterUpdate(s.rows, id, row, en.employeeId, types, window);
    }
  }

  lemma {:induction false} WithinQuotaSoFar(events: seq<Event>, k: nat, en: Entitlement)
    requires k <= |events| && en.quota >= 0.0
    requires forall i :: 0 <= i < k ==> !Overspends(At(events, i), events[i], en)
    ensures Taken(At(events, k).rows, en) <= en.quota
  {
    if k > 0 {
      WithinQuotaSoFar(events, k - 1, en);
      NextState(events, k - 1);
      FitsAt(events, k - 1);
      StepWithinQuotaIff(At(events, k - 1), events[k - 1], en);
    }
  }

  lemma {:induction false} FirstOverspending(events: seq<Event>, n: nat, en: Entitlement) returns (k: nat)
    requires n <= |events| && exists i :: 0 <= i < n && Overspends(At(events, i), events[i], en)
    ensures k < n && Overspends(At(events, k), events[k], en)
    ensures forall i :: 0 <= i < k ==> !Overspends(At(events, i), events[i], en)
  {
    if exists i :: 0 <= i < n - 1 && Overspends(At(events, i), events[i], en) {
      k := FirstOverspending(events, n - 1, en);
    } else {
      k := n - 1;
    }
  }

  /** In any interleaving the approved days of a type stay within a quota at every moment exactly
      when no approval is written that no longer fits. */
  lemma QuotaHoldsIff(events: seq<Event>, en: Entitlement)
    requires en.quota >= 0.0
    ensures (forall k: nat :: k <= |events| ==> Taken(At(events, k).rows, en) <= en.quota)
            <==> NoOverspending(events, en)
  {
    if NoOverspending(events, en) {
      forall k: nat | k <= |events|
        ensures Taken(At(events, k).rows, en) <= en.quota
      {
        WithinQuotaSoFar(events, k, en);
      }
    } else {
      var k := FirstOverspending(events, |events|, en);
      WithinQuotaSoFar(events, k, en);
      NextState(events, k);
      FitsAt(events, k);
      StepWithinQuotaIff(At(events, k), events[k], en);
      assert Taken(At(events, k + 1).rows, en) > en.quota;
    }
  }

  // ---- all together ---------------------------------------------------------------------------------------

  /** The calendar is safe at moment k, the decisions taken by then still stand at moment m, and
      the quotas hold at moment k. */
  predicate SafeBetween(events: seq<Event>, entitlements: set<Entitlement>, k: nat, m: nat)
    requires k <= m <= |events|
  {
    && Sound(At(events, k).rows) && KeepsDecisions(At(events, k).rows, At(events, m).rows)
    && forall en | en in entitlements :: Taken(At(events, k).rows, en) <= en.quota
  }

  /** For every interleaving and any quotas: the calendar is safe at every moment, every decision
      is final and no quota is ever exceeded, exactly when no decision is lost, no day is booked
      twice and no approval is written that no longer fits. */
  lemma InterleavingIsSafeIff(events: seq<Event>, entitlements: set<Entitlement>)
    requires forall en | en in entitlements :: en.quota >= 0.0
    ensures (forall k: nat, m: nat | k <= m <= |events| :: SafeBetween(events, entitlements, k, m))
            <==> && NoLostDecisions(events) && NoDoubleBooking(events)
                 && forall en | en in entitlements :: NoOverspending(events, en)
  {
    DecisionsAreFinalIff(events);
    forall en | en in entitlements
      ensures (forall k: nat :: k <= |events| ==> Taken(At(events, k).rows, en) <= en.quota)
              <==> NoOverspending(events, en)
    {
      QuotaHoldsIff(events, en);
    }
    if !NoLostDecisions(events) {
      var k: nat, m: nat :| k <= m <= |events| && !KeepsDecisions(At(events, k).rows, At(events, m).rows);
      assert !SafeBetween(events, entitlements, k, m);
    } else {
      CalendarIsSafeIff(events);
      if !NoDoubleBooking(events) {
        var k: nat :| k <= |events| && !Sound(At(events, k).rows);
        assert !SafeBetween(events, entitlements, k, k);
      } else if en :| en in entitlements && !NoOverspending(events, en) {
        var k: nat :| k <= |events| && !(Taken(At(events, k).rows, en) <= en.quota);
        assert !SafeBetween(events, entitlements, k, k);
      }
    }
  }

  /** Whenever one session can file an application and another one like it checks before the
      first has written, both are filed, on the same days. */
  lemma TwoChecksBookTwice(s: State, a: SessionId, b: SessionId, call: Call)
    requires Sound(s.rows) && a !in s.open && b !in s.open && a != b
    requires call.Request? && Filed(call.env, s.rows, call.application).Success?
    ensures var after := Step(Step(Step(Step(s, Begin(a, call)), Begin(b, call)), Finish(a)), Finish(b)).rows;
            |after| == |s.rows| + 2 && Clash(after[|s.rows|], after[|s.rows| + 1])
  {
    FiledIsSound(call.env, s.rows, call.application);
    var row := Filed(call.env, s.rows, call.application).value;
    var s1 := Step(s, Begin(a, call));
    var s2 := Step(s1, Begin(b, call));
    assert s2.open[a] == s2.open[b] == Append(row, |s.rows|);
    var s3 := Step(s2, Finish(a));
    assert s3.open[b] == Append(row, |s.rows|);
    assert Step(s3, Finish(b)).rows == s.rows + [row] + [row];
  }

  /** Whenever an approval has passed its checks and the request is then withdrawn, the approval
      still goes through: the withdrawn request ends up approved. */
  lemma ApprovalOverridesWithdrawal(s: State, a: SessionId, b: SessionId, call: Call)
    requires a !in s.open && b !in s.open && a != b
    requires call.Approve? && Decided(call.env, s.rows, call.id, Approved, call.review).Success?
    ensures var withdrawn := Step(Step(Step(s, Begin(a, call)), Begin(b, Cancel(call.id))), Finish(b));
            && withdrawn.rows[call.id].status == Cancelled
            && Step(withdrawn, Finish(a)).rows[call.id].status == Approved
  {
    var s1 := Step(s, Begin(a, call));
    var s2 := Step(s1, Begin(b, Cancel(call.id)));
    assert s2.open[a].Put? && s2.open[b] == Put(call.id, s.rows[call.id].(status := Cancelled));
    var s3 := Step(s2, Finish(b));
    assert s3.open[a] == s2.open[a];
  }

  /** Two approvals of one employee, type and year that both check before either writes are both
      granted and both count. The second write overspends exactly when the quota does not hold
      the two on top of what was taken - although each was found to fit alone. */
  lemma TwoApprovalsOverspendIff(s: State, a: SessionId, b: SessionId, first: Call, second: Call, en: Entitlement)
    requires a !in s.open && b !in s.open && a != b
    requires first.Approve? && Decided(first.env, s.rows, first.id, Approved, first.review).Success?
    requires second.Approve? && Decided(second.env, s.rows, second.id, Approved, second.review).Success?
    requires first.id != second.id
    requires forall id | id in {first.id, second.id} ::
               && s.rows[id].employeeId == en.employeeId && s.rows[id].leaveTypeId == en.leaveTypeId
               && CalendarYear(en.year).Has(s.rows[id].range.from)
    ensures var third := Step(Step(Step(s, Begin(a, first)), Begin(b, second)), Finish(a));
            var total := Taken(s.rows, en) + s.rows[first.id].days + s.rows[second.id].days;
            && Taken(Step(third, Finish(b)).rows, en) == total
            && (Overspends(third, Finish(b), en) <==> total > en.quota)
  {
    var e, types, window := en.employeeId, {en.leaveTypeId}, CalendarYear(en.year);
    var row1 := Decided(first.env, s.rows, first.id, Approved, first.review).value;
    var row2 := Decided(second.env, s.rows, second.id, Approved, second.review).value;
    var s2 := Step(Step(s, Begin(a, first)), Begin(b, second));
    assert s2.open[a] == Put(first.id, row1) && s2.open[b] == Put(second.id, row2);
    var s3 := Step(s2, Finish(a));
    assert s3.rows == s.rows[first.id := row1] && s3.open[b] == Put(second.id, row2);
    ApprovedDaysAfterUpdate(s.rows, first.id, row1, e, types, window);
    ApprovedDaysAfterUpdate(s3.rows, second.id, row2, e, types, window);
  }

  // ---- an overspending run --------------------------------------------------------------------------------

  /** One employee, one type with half a day a year, no further rules. */
  const SMALL_SHOP := Environment(map[7 := Attendance.Staff(true, None)], [LeaveType(0.5, true, true, false)],
                                  LeaveRules(0, 0, false, false), 0)

  /** A half day on a day. */
  function HalfDayOn(day: Day): Application {
    Application(7, 0, day * DAY, day * DAY, true)
  }

  function HalfDayRow(day: Day): LeaveRequest {
    LeaveRequest(7, 0, DateRange(day, day), 0.5, true, Pending, None)
  }

  const REVIEW := Review(1, 0, "")

  const OVERSPENDING: seq<Event> := [
    Begin(0, Request(SMALL_SHOP, HalfDayOn(1))), Finish(0),
    Begin(0, Request(SMALL_SHOP, HalfDayOn(2))), Finish(0),
    Begin(1, Approve(SMALL_SHOP, 0, REVIEW)), Begin(2, Approve(SMALL_SHOP, 1, REVIEW)),
    Finish(1), Finish(2)]

  lemma HalfDayFiled(rows: seq<LeaveRequest>, day: Day)
    requires forall i :: 0 <= i < |rows| ==> rows[i].range.to < day && rows[i].status == Pending
    ensures Prepared(rows, Request(SMALL_SHOP, HalfDayOn(day))) == Some(Append(HalfDayRow(day), |rows|))
  {
    assert Attendance.DateOnly(day * DAY) == day;
    NothingApproved(rows, Entitlement(7, 0, YearOf(day), 0.5));
  }

  lemma {:induction false} NothingApproved(rows: seq<LeaveRequest>, en: Entitlement)
    requires forall i :: 0 <= i < |rows| ==> rows[i].status != Approved
    ensures Taken(rows, en) == 0.0
  {
    if rows != [] {
      NothingApproved(rows[..|rows| - 1], en);
    }
  }

  lemma FiledInTwoSteps(events: seq<Event>, k: nat, rows: seq<LeaveRequest>, day: Day)
    requires k + 1 < |events| && At(events, k) == State(rows, map[])
    requires events[k] == Begin(0, Request(SMALL_SHOP, HalfDayOn(day))) && events[k + 1] == Finish(0)
    requires forall i :: 0 <= i < |rows| ==> rows[i].range.to < day && rows[i].status == Pending
    ensures At(events, k + 2) == State(rows + [HalfDayRow(day)], map[])
  {
    HalfDayFiled(rows, day);
    NextState(events, k);
    NextState(events, k + 1);
    assert At(events, k + 1) == State(rows, map[0 := Append(HalfDayRow(day), |rows|)]);
  }

  /** Both requests are filed, each a half day of a quota of half a day. */
  lemma TwoFiled()
    ensures At(OVERSPENDING, 4) == State([HalfDayRow(1), HalfDayRow(2)], map[])
  {
    assert OVERSPENDING[..0] == [];
    FiledInTwoSteps(OVERSPENDING, 0, [], 1);
    assert [] + [HalfDayRow(1)] == [HalfDayRow(1)];
    FiledInTwoSteps(OVERSPENDING, 2, [HalfDayRow(1)], 2);
    assert [HalfDayRow(1)] + [HalfDayRow(2)] == [HalfDayRow(1), HalfDayRow(2)];
  }

  function Granted(day: Day): LeaveRequest {
    HalfDayRow(day).(status := Approved, review := Some(REVIEW))
  }

  /** Both approvals have checked while nothing was taken. */
  lemma TwoChecked()
    ensures At(OVERSPENDING, 6)
         == State([HalfDayRow(1), HalfDayRow(2)], map[1 := Put(0, Granted(1)), 2 := Put(1, Granted(2))])
  {
    var en, rows := Entitlement(7, 0, 1, 0.5), [HalfDayRow(1), HalfDayRow(2)];
    CalendarYearBounds(1);
    YearOfIff(1, 1);
    YearOfIff(2, 1);
    TwoFiled();
    NothingApproved(rows, en);
    NextState(OVERSPENDING, 4);
    assert At(OVERSPENDING, 5) == State(rows, map[1 := Put(0, Granted(1))]);
    NextState(OVERSPENDING, 5);
  }

  lemma OnlyGrantedDraws(day: Day)
    requires day == 1 || day == 2
    ensures Draws(Granted(day), Entitlement(7, 0, 1, 0.5)) && !Draws(HalfDayRow(day), Entitlement(7, 0, 1, 0.5))
  {
    CalendarYearBounds(1);
  }

  /** The first of them is written: the quota is used up. */
  lemma FirstGranted()
    ensures At(OVERSPENDING, 7) == State([Granted(1), HalfDayRow(2)], map[2 := Put(1, Granted(2))])
    ensures Taken([Granted(1), HalfDayRow(2)], Entitlement(7, 0, 1, 0.5)) == 0.5
  {
    var en, rows := Entitlement(7, 0, 1, 0.5), [HalfDayRow(1), HalfDayRow(2)];
    OnlyGrantedDraws(1);
    TwoChecked();
    NothingApproved(rows, en);
    NextState(OVERSPENDING, 6);
    assert rows[0 := Granted(1)] == [Granted(1), HalfDayRow(2)];
    ApprovedDaysAfterUpdate(rows, 0, Granted(1), 7, {0}, CalendarYear(1));
  }

  /** Two half days are filed, both approvals check while nothing is taken, and both are written:
      the employee has taken a whole day of a quota of half a day. The second write is the one
      that overspends. */
  lemma QuotaIsOverspent()
    ensures var en := Entitlement(7, 0, 1, 0.5);
            Taken(At(OVERSPENDING, 8).rows, en) == 1.0 && Overspends(At(OVERSPENDING, 7), OVERSPENDING[7], en)
  {
    var rows := [Granted(1), HalfDayRow(2)];
    OnlyGrantedDraws(2);
    FirstGranted();
    NextState(OVERSPENDING, 7);
    assert OVERSPENDING[7] == Finish(2);
    assert At(OVERSPENDING, 8).rows == rows[1 := Granted(2)];
    ApprovedDaysAfterUpdate(rows, 1, Granted(2), 7, {0}, CalendarYear(1));
  }
}
