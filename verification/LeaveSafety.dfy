/** What the leave calendar guarantees over every run of requests and decisions, whatever the
    roster, the leave types and the rules are at each call. */
module LeaveSafety {
  import opened Calendar
  import opened Leave
  import opened Shifts
  import opened Wrappers

  // ---- the safe calendar ---------------------------------------------------------------------

  predicate SoundRow(row: LeaveRequest) {
    row.range.from <= row.range.to && 0.0 < row.days <= row.range.Length() as real && InHalves(row.days)
  }

  predicate Clash(a: LeaveRequest, b: LeaveRequest) {
    a.Live() && b.Live() && a.employeeId == b.employeeId && Overlap(a.range, b.range)
  }

  predicate Sound(rows: seq<LeaveRequest>) {
    && (forall i :: 0 <= i < |rows| ==> SoundRow(rows[i]))
    && (forall i, k :: 0 <= i < k < |rows| ==> !Clash(rows[i], rows[k]))
  }

  lemma FiledIsSound(env: Environment, rows: seq<LeaveRequest>, application: Application)
    requires Filed(env, rows, application).Success?
    ensures SoundRow(Filed(env, rows, application).value)
    ensures forall i :: 0 <= i < |rows| ==> !Clash(rows[i], Filed(env, rows, application).value)
  {
    LeaveDaysFitRange(RangeOf(application), application.halfDay, env.staff[application.employeeId].shift,
                      env.rules.excludeWeeklyOff);
  }

  lemma CallKeepsSound(rows: seq<LeaveRequest>, call: Call)
    requires Sound(rows)
    ensures Sound(AfterCall(rows, call))
  {
    if call.Request? && Filed(call.env, rows, call.application).Success? {
      FiledIsSound(call.env, rows, call.application);
    }
  }

  lemma {:induction false} RunKeepsSound(rows: seq<LeaveRequest>, calls: seq<Call>)
    requires Sound(rows)
    ensures Sound(Run(rows, calls))
  {
    if calls != [] {
      RunKeepsSound(rows, calls[..|calls| - 1]);
      CallKeepsSound(Run(rows, calls[..|calls| - 1]), calls[|calls| - 1]);
    }
  }

  /** In every reachable state the pending and approved requests of an employee have pairwise
      disjoint dates: no day lies in two of them. */
  lemma {:induction false} LiveRangesAreDisjoint(calls: seq<Call>, i: nat, k: nat, day: Day)
    requires i < k < |Run([], calls)|
    ensures var rows := Run([], calls);
            && rows[i].status in {Pending, Approved} && rows[k].status in {Pending, Approved}
            && rows[i].employeeId == rows[k].employeeId ==>
              !(rows[i].range.Has(day) && rows[k].range.Has(day))
  {
    RunKeepsSound([], calls);
    var rows := Run([], calls);
    assert !Clash(rows[i], rows[k]);
  }

  /** The range test of the query is the right one: two requests clash on dates exactly when
      some day lies in both. */
  lemma OverlapIsSharedDay(a: DateRange, b: DateRange)
    requires a.from <= a.to && b.from <= b.to
    ensures Overlap(a, b) <==> exists day :: a.Has(day) && b.Has(day)
  {
    var latest := if a.from <= b.from then b.from else a.from;
    assert Overlap(a, b) ==> a.Has(latest) && b.Has(latest);
  }

  /** An application is filed exactly when it is well formed, its employee and active type
      exist, it keeps to the rules on notice, length and balance, takes some leave, and no day of
      it is in a pending or approved request of the same employee. */
  lemma FiledIff(env: Environment, rows: seq<LeaveRequest>, application: Application)
    requires Sound(rows)
    ensures var range, e, t := RangeOf(application), application.employeeId, application.leaveTypeId;
            Filed(env, rows, application).Success? <==>
            && range.from <= range.to
            && (application.halfDay ==> range.Length() == 1)
            && e in env.staff && TypeFound(env, t) && env.types[t].active
            && (env.rules.minNoticeDays > 0 ==> range.from - env.today >= env.rules.minNoticeDays)
            && (application.halfDay
                || exists day :: range.Has(day) && Counted(env.staff[e].shift, env.rules.excludeWeeklyOff, day))
            && var days := LeaveDays(range, application.halfDay, env.staff[e].shift, env.rules.excludeWeeklyOff);
            && (env.rules.maxConsecutiveDays > 0 ==> days <= env.rules.maxConsecutiveDays as real)
            && !ExceedsBalance(env, rows, e, t, range.from, days)
            && (forall i, day :: 0 <= i < |rows| && Holds(rows[i], e) && rows[i].range.Has(day) ==>
                  !range.Has(day))
  {
    var range, e := RangeOf(application), application.employeeId;
    if range.from <= range.to {
      OverlapIffSharedDay(rows, e, range);
      if e in env.staff && (application.halfDay ==> range.from == range.to) {
        SomeDaysIff(range, application.halfDay, env.staff[e].shift, env.rules.excludeWeeklyOff);
      }
    }
  }

  lemma OverlapIffSharedDay(rows: seq<LeaveRequest>, employeeId: EmployeeId, range: DateRange)
    requires Sound(rows) && range.from <= range.to
    ensures HasOverlap(rows, employeeId, range) <==>
            exists i, day :: 0 <= i < |rows| && rows[i].Live() && rows[i].employeeId == employeeId
                             && rows[i].range.Has(day) && range.Has(day)
  {
    forall i | 0 <= i < |rows|
      ensures Overlap(rows[i].range, range) <==> exists day :: rows[i].range.Has(day) && range.Has(day)
    {
      assert SoundRow(rows[i]);
      OverlapIsSharedDay(rows[i].range, range);
    }
  }

  lemma SomeDaysIff(range: DateRange, halfDay: bool, shift: Option<Shift>, excludeWeeklyOff: bool)
    requires halfDay ==> range.from == range.to
    ensures LeaveDays(range, halfDay, shift, excludeWeeklyOff) > 0.0 <==>
            halfDay || exists day :: range.Has(day) && Counted(shift, excludeWeeklyOff, day)
  {
    var working := WorkingDays(range, shift, excludeWeeklyOff);
    if working == {} {
      assert forall day :: range.Has(day) && Counted(shift, excludeWeeklyOff, day) ==> day in working;
    } else {
      var day :| day in working;
      assert range.Has(day) && Counted(shift, excludeWeeklyOff, day);
      assert |working| > 0;
    }
  }

  predicate Holds(row: LeaveRequest, employeeId: EmployeeId) {
    row.Live() && row.employeeId == employeeId
  }

  /** Days booked by the employee's pending and approved requests. */
  function LiveDays(rows: seq<LeaveRequest>, employeeId: EmployeeId): real {
    if rows == [] then 0.0
    else
      var row := rows[|rows| - 1];
      LiveDays(rows[..|rows| - 1], employeeId) + if Holds(row, employeeId) then row.days else 0.0
  }

  /** The calendar days they cover. */
  function CoveredDays(rows: seq<LeaveRequest>, employeeId: EmployeeId): set<Day> {
    if rows == [] then {}
    else
      var row := rows[|rows| - 1];
      CoveredDays(rows[..|rows| - 1], employeeId) + if Holds(row, employeeId) then RangeDays(row.range) else {}
  }

  lemma {:induction false} CoveredBySome(rows: seq<LeaveRequest>, employeeId: EmployeeId, day: Day)
    ensures day in CoveredDays(rows, employeeId)
       <==> exists i :: 0 <= i < |rows| && Holds(rows[i], employeeId) && rows[i].range.Has(day)
  {
    if rows != [] {
      var rest := rows[..|rows| - 1];
      CoveredBySome(rest, employeeId, day);
      assert forall i :: 0 <= i < |rest| ==> rest[i] == rows[i];
    }
  }

  lemma {:induction false} SoundDaysFit(rows: seq<LeaveRequest>, employeeId: EmployeeId)
    requires Sound(rows)
    ensures LiveDays(rows, employeeId) <= |CoveredDays(rows, employeeId)| as real
  {
    if rows != [] {
      var rest, row := rows[..|rows| - 1], rows[|rows| - 1];
      SoundDaysFit(rest, employeeId);
      if Holds(row, employeeId) {
        NewDaysAreFree(rows, employeeId);
        RangeDaysCount(row.range);
        assert |CoveredDays(rows, employeeId)| == |CoveredDays(rest, employeeId)| + |RangeDays(row.range)|;
      }
    }
  }

  lemma NewDaysAreFree(rows: seq<LeaveRequest>, employeeId: EmployeeId)
    requires Sound(rows) && rows != [] && Holds(rows[|rows| - 1], employeeId)
    ensures CoveredDays(rows[..|rows| - 1], employeeId) !! RangeDays(rows[|rows| - 1].range)
  {
    var rest, row := rows[..|rows| - 1], rows[|rows| - 1];
    forall day | day in CoveredDays(rest, employeeId)
      ensures day !in RangeDays(row.range)
    {
      CoveredBySome(rest, employeeId, day);
      var i :| 0 <= i < |rest| && Holds(rest[i], employeeId) && rest[i].range.Has(day);
      assert !Clash(rows[i], row);
    }
  }

  /** An employee never books more leave than the distinct calendar days the requests cover. */
  lemma LiveDaysFitCalendar(calls: seq<Call>, employeeId: EmployeeId)
    ensures LiveDays(Run([], calls), employeeId) <= |CoveredDays(Run([], calls), employeeId)| as real
  {
    RunKeepsSound([], calls);
    SoundDaysFit(Run([], calls), employeeId);
  }

  // ---- decisions are final ------------------------------------------------------------------------

  predicate SameApplication(a: LeaveRequest, b: LeaveRequest) {
    && a.employeeId == b.employeeId && a.leaveTypeId == b.leaveTypeId
    && a.range == b.range && a.days == b.days && a.halfDay == b.halfDay
  }

  /** No later call takes a request back, rewrites what was asked for, or changes anything
      about it once it has left the pending state. */
  lemma {:induction false} DecisionsAreFinal(rows: seq<LeaveRequest>, calls: seq<Call>, id: nat)
    requires id < |rows|
    ensures id < |Run(rows, calls)|
    ensures SameApplication(rows[id], Run(rows, calls)[id])
    ensures rows[id].IsDecided() ==> Run(rows, calls)[id] == rows[id]
  {
    if calls != [] {
      DecisionsAreFinal(rows, calls[..|calls| - 1], id);
    }
  }

  lemma {:induction false} RunSplits(rows: seq<LeaveRequest>, first: seq<Call>, second: seq<Call>)
    ensures Run(rows, first + second) == Run(Run(rows, first), second)
  {
    if second == [] {
      assert first + second == first;
    } else {
      var n := |second| - 1;
      RunSplits(rows, first, second[..n]);
      assert (first + second)[..|first| + n] == first + second[..n];
    }
  }

  // ---- quota safety ---------------------------------------------------------------------------------

  /** When the call approves, the type has a quota of at most this much and negative balances
      are off. */
  predicate WithinQuota(call: Call, leaveTypeId: LeaveTypeId, quota: real) {
    call.Approve? ==>
      && leaveTypeId < |call.env.types|
      && 0.0 < call.env.types[leaveTypeId].annualQuotaDays <= quota
      && !call.env.rules.allowNegativeBalance
  }

  lemma CallKeepsQuota(rows: seq<LeaveRequest>, call: Call, employeeId: EmployeeId, leaveTypeId: LeaveTypeId,
                       quota: real, year: int)
    requires quota > 0.0 && WithinQuota(call, leaveTypeId, quota)
    requires ApprovedDays(rows, employeeId, {leaveTypeId}, CalendarYear(year)) <= quota
    ensures ApprovedDays(AfterCall(rows, call), employeeId, {leaveTypeId}, CalendarYear(year)) <= quota
  {
    var after := AfterCall(rows, call);
    if call.Request? && after != rows {
      var row := after[|rows|];
      assert after == rows + [row] && row.status == Pending;
      ApprovedDaysAdds(rows, row, employeeId, {leaveTypeId}, CalendarYear(year));
    } else if after != rows {
      DecisionKeepsQuota(rows, call, employeeId, leaveTypeId, quota, year);
    }
  }

  lemma DecisionKeepsQuota(rows: seq<LeaveRequest>, call: Call, employeeId: EmployeeId, leaveTypeId: LeaveTypeId,
                           quota: real, year: int)
    requires quota > 0.0 && WithinQuota(call, leaveTypeId, quota) && !call.Request?
    requires ApprovedDays(rows, employeeId, {leaveTypeId}, CalendarYear(year)) <= quota
    requires call.id < |rows| && AfterCall(rows, call) != rows
    ensures ApprovedDays(AfterCall(rows, call), employeeId, {leaveTypeId}, CalendarYear(year)) <= quota
  {
    var row, types, window := AfterCall(rows, call)[call.id], {leaveTypeId}, CalendarYear(year);
    assert AfterCall(rows, call) == rows[call.id := row];
    ApprovedDaysAfterUpdate(rows, call.id, row, employeeId, types, window);
    if IsApprovedIn(row, employeeId, types, window) {
      YearOfIff(row.range.from, year);
    }
  }

  /** However many requests were pending together, and whatever else was decided in between,
      the approved days of a quota-bearing type that start in a year never exceed its quota. */
  lemma {:induction false} QuotaIsNeverOverspent(calls: seq<Call>, employeeId: EmployeeId, leaveTypeId: LeaveTypeId,
                                                 quota: real, year: int)
    requires quota > 0.0
    requires forall call | call in calls :: WithinQuota(call, leaveTypeId, quota)
    ensures ApprovedDays(Run([], calls), employeeId, {leaveTypeId}, CalendarYear(year)) <= quota
  {
    if calls != [] {
      var before := calls[..|calls| - 1];
      QuotaIsNeverOverspent(before, employeeId, leaveTypeId, quota, year);
      CallKeepsQuota(Run([], before), calls[|calls| - 1], employeeId, leaveTypeId, quota, year);
    }
  }

  lemma HalvesAdd(a: real, b: real)
    requires InHalves(a) && InHalves(b)
    ensures InHalves(a + b)
  {
    assert (a + b) * 2.0 == ((a * 2.0).Floor + (b * 2.0).Floor) as real;
  }

  lemma {:induction false} ApprovedInHalves(rows: seq<LeaveRequest>, employeeId: EmployeeId, types: set<LeaveTypeId>,
                                            window: DateRange)
    requires Sound(rows)
    ensures InHalves(ApprovedDays(rows, employeeId, types, window))
    ensures ApprovedDays(rows, employeeId, types, window) >= 0.0
    ensures ApprovedDays(rows, employeeId, types, window) > 0.0 <==>
            exists i :: 0 <= i < |rows| && IsApprovedIn(rows[i], employeeId, types, window)
  {
    if rows == [] {
      WholeDaysRoundExactly(0);
    } else {
      var rest, row := rows[..|rows| - 1], rows[|rows| - 1];
      ApprovedInHalves(rest, employeeId, types, window);
      WholeDaysRoundExactly(0);
      HalvesAdd(ApprovedDays(rest, employeeId, types, window), Contribution(row, employeeId, types, window));
      assert forall i :: 0 <= i < |rest| ==> rest[i] == rows[i];
    }
  }

  /** The balance screen shows exactly the approved days and, for a quota of two decimals,
      exactly what is left of it - which under the quota rule is never negative. */
  lemma {:induction false} BalanceShowsWhatIsLeft(calls: seq<Call>, types: seq<LeaveType>, t: LeaveTypeId,
                                                  employeeId: EmployeeId, year: int)
    requires t < |types| && types[t].annualQuotaDays > 0.0
    requires RoundDays(types[t].annualQuotaDays) == types[t].annualQuotaDays
    ensures var line := BalanceOf(Run([], calls), types, t, employeeId, year);
            && line.taken == ApprovedDays(Run([], calls), employeeId, {t}, CalendarYear(year))
            && line.remaining + line.taken == line.entitled
            && !line.unlimited
            && ((forall call | call in calls :: WithinQuota(call, t, types[t].annualQuotaDays)) ==>
                  line.remaining >= 0.0)
  {
    var rows, quota := Run([], calls), types[t].annualQuotaDays;
    var taken := ApprovedDays(rows, employeeId, {t}, CalendarYear(year));
    RunKeepsSound([], calls);
    ApprovedInHalves(rows, employeeId, {t}, CalendarYear(year));
    HalvesRoundExactly(taken);
    DifferenceRoundsExactly(quota, taken);
    if forall call | call in calls :: WithinQuota(call, t, quota) {
      QuotaIsNeverOverspent(calls, employeeId, t, quota, year);
    }
  }

  lemma WholeDifference(x: real, y: real, difference: real)
    requires x.Floor as real == x && y.Floor as real == y && difference == x - y
    ensures difference.Floor as real == difference
  {
    assert difference == (x.Floor - y.Floor) as real;
  }

  lemma DifferenceRoundsExactly(a: real, b: real)
    requires RoundDays(a) == a && RoundDays(b) == b
    ensures RoundDays(a - b) == a - b
  {
    RoundDaysExactIff(a);
    RoundDaysExactIff(b);
    WholeDifference(a * 100.0, b * 100.0, (a - b) * 100.0);
    RoundDaysExactIff(a - b);
  }

  // ---- what a call does, on its inputs ------------------------------------------------------------

  /** An approved request of the employee, of that type, that starts in the window adds its days to
      the total; any other row adds nothing. */
  lemma ApprovedDaysAdds(rows: seq<LeaveRequest>, row: LeaveRequest, employeeId: EmployeeId,
                         types: set<LeaveTypeId>, window: DateRange)
    ensures ApprovedDays([], employeeId, types, window) == 0.0
    ensures ApprovedDays(rows + [row], employeeId, types, window)
         == ApprovedDays(rows, employeeId, types, window)
            + if row.status == Approved && row.employeeId == employeeId && row.leaveTypeId in types
                 && window.from <= row.range.from <= window.to
              then row.days else 0.0
  {
    assert (rows + [row])[..|rows|] == rows;
  }

  /** The balance check refuses exactly when the type has a quota, negative balances are not
      allowed, and the days taken in the calendar year the leave starts in would exceed it. */
  lemma ExceedsBalanceIff(env: Environment, rows: seq<LeaveRequest>, employeeId: EmployeeId, t: LeaveTypeId,
                          start: Day, days: real, year: int)
    requires t < |env.types| && CalendarYear(year).Has(start)
    ensures ExceedsBalance(env, rows, employeeId, t, start, days) <==>
            && env.types[t].annualQuotaDays > 0.0 && !env.rules.allowNegativeBalance
            && ApprovedDays(rows, employeeId, {t}, CalendarYear(year)) > env.types[t].annualQuotaDays - days
  {
    YearOfIff(start, year);
  }

  /** The days of a range that are not rostered days off, if those are excluded. */
  function DaysOn(range: DateRange, shift: Option<Shift>, excludeWeeklyOff: bool): set<Day> {
    set day | range.from <= day <= range.to
              && (!excludeWeeklyOff || shift.None? || Weekday(day) !in shift.value.weeklyOff)
  }

  /** A filed request is the application as it was made: that employee and type, the two calendar
      days, half a day if asked for and else the days the employee is on, pending and unreviewed. */
  lemma FiledRequestIs(env: Environment, rows: seq<LeaveRequest>, application: Application)
    requires Filed(env, rows, application).Success?
    ensures var row := Filed(env, rows, application).value;
            && row.employeeId == application.employeeId && row.leaveTypeId == application.leaveTypeId
            && row.range.from * DAY <= application.startDate < (row.range.from + 1) * DAY
            && row.range.to * DAY <= application.endDate < (row.range.to + 1) * DAY
            && row.halfDay == application.halfDay && row.status == Pending && row.review == None
            && row.employeeId in env.staff
            && row.days == if row.halfDay then 0.5
                           else |DaysOn(row.range, env.staff[row.employeeId].shift, env.rules.excludeWeeklyOff)| as real
  {
    var row, shift := Filed(env, rows, application).value, env.staff[application.employeeId].shift;
    assert WorkingDays(row.range, shift, env.rules.excludeWeeklyOff)
        == DaysOn(row.range, shift, env.rules.excludeWeeklyOff);
  }

  /** Why an application is refused. */
  ghost predicate Refuses(error: Error, env: Environment, rows: seq<LeaveRequest>, application: Application) {
    var range, e, t := RangeOf(application), application.employeeId, application.leaveTypeId;
    match error
    case EndBeforeStart => range.to < range.from
    case HalfDayNotSingleDay => application.halfDay && range.from < range.to
    case EmployeeNotFound => e !in env.staff
    case TypeNotFound => t >= |env.types| || env.types[t].deleted
    case TypeInactive => t < |env.types| && !env.types[t].active
    case NotEnoughNotice => range.from - env.today < env.rules.minNoticeDays
    case NoWorkingDays =>
      e in env.staff && DaysOn(range, env.staff[e].shift, env.rules.excludeWeeklyOff) == {}
    case TooManyDays =>
      && e in env.staff && 0 < env.rules.maxConsecutiveDays
      && (env.rules.maxConsecutiveDays < |DaysOn(range, env.staff[e].shift, env.rules.excludeWeeklyOff)|
          || application.halfDay)
    case Overlapping =>
      exists i, day :: 0 <= i < |rows| && rows[i].status in {Pending, Approved} && rows[i].employeeId == e
                       && rows[i].range.Has(day) && range.Has(day)
    case BalanceExceeded =>
      && t < |env.types| && env.types[t].annualQuotaDays > 0.0 && !env.rules.allowNegativeBalance
    case RequestNotFound => false
    case AlreadyDecided => false
  }

  /** Each refusal of an application names something that is wrong with it. */
  lemma {:induction false} RefusalIsTrue(env: Environment, rows: seq<LeaveRequest>, application: Application)
    requires Sound(rows) && Filed(env, rows, application).Failure?
    ensures Refuses(Filed(env, rows, application).error, env, rows, application)
  {
    var range, e := RangeOf(application), application.employeeId;
    if e in env.staff {
      var shift, exclude := env.staff[e].shift, env.rules.excludeWeeklyOff;
      assert WorkingDays(range, shift, exclude) == DaysOn(range, shift, exclude);
    }
    if range.from <= range.to {
      OverlapIffSharedDay(rows, e, range);
    }
  }

  /** Why a decision is refused: there is no such request, it is decided already, or - for an
      approval - its type is gone or its balance does not hold. */
  lemma DecisionRefusalIsTrue(env: Environment, rows: seq<LeaveRequest>, id: nat, status: Status, review: Review)
    requires Decided(env, rows, id, status, review).Failure?
    ensures match Decided(env, rows, id, status, review).error
            case RequestNotFound => id >= |rows|
            case AlreadyDecided => id < |rows| && rows[id].status != Pending
            case TypeNotFound =>
              && status == Approved && id < |rows|
              && (rows[id].leaveTypeId >= |env.types| || env.types[rows[id].leaveTypeId].deleted)
            case BalanceExceeded =>
              && status == Approved && id < |rows| && rows[id].leaveTypeId < |env.types|
              && ExceedsBalance(env, rows, rows[id].employeeId, rows[id].leaveTypeId, rows[id].range.from,
                                rows[id].days)
            case _ => false
  {
  }

  lemma WithdrawalRefusalIsTrue(rows: seq<LeaveRequest>, id: nat)
    requires Withdrawn(rows, id).Failure?
    ensures Withdrawn(rows, id).error == if id < |rows| then AlreadyDecided else RequestNotFound
    ensures id < |rows| ==> rows[id].status != Pending
  {
  }

  /** A decision changes the one request, which must be pending: an approval or rejection records
      who reviewed it, a withdrawal does not. An approval also needs the type to be there still and
      the balance to hold; nothing else is refused. */
  lemma DecisionIs(rows: seq<LeaveRequest>, call: Call)
    requires !call.Request?
    ensures var holds := call.Approve? ==>
                           && call.id < |rows|
                           && rows[call.id].leaveTypeId < |call.env.types|
                           && !call.env.types[rows[call.id].leaveTypeId].deleted
                           && !ExceedsBalance(call.env, rows, rows[call.id].employeeId, rows[call.id].leaveTypeId,
                                              rows[call.id].range.from, rows[call.id].days);
            if call.id < |rows| && rows[call.id].status == Pending && holds then
              AfterCall(rows, call) == rows[call.id :=
                match call
                case Approve(_, id, review) => rows[id].(status := Approved, review := Some(review))
                case Reject(_, id, review) => rows[id].(status := Rejected, review := Some(review))
                case Cancel(id) => rows[id].(status := Cancelled)]
            else AfterCall(rows, call) == rows
  {
  }
}
