/** Leave requests of one business (backend/internal/service/hrm_leave_service.go and
    backend/internal/repository/hrm_leave_repository.go): filing, deciding, balances, and the
    two views that total approved days. A request's id is its position in the table; rows are
    never deleted. */
module Leave {
  import opened Calendar
  import opened Rounding
  import opened Shifts
  import opened Wrappers
  import Attendance

  type EmployeeId = Attendance.EmployeeId
  type LeaveTypeId = nat

  // ---- data -----------------------------------------------------------------------------

  /** A quota of zero means the type has no entitlement to exhaust. */
  datatype LeaveType = LeaveType(annualQuotaDays: real, isPaid: bool, active: bool, deleted: bool)

  datatype Status = Pending | Approved | Rejected | Cancelled

  datatype Review = Review(reviewedBy: nat, reviewedAt: int, note: string)

  datatype LeaveRequest = LeaveRequest(
    employeeId: EmployeeId,
    leaveTypeId: LeaveTypeId,
    range: DateRange,
    days: real,
    halfDay: bool,
    status: Status,
    review: Option<Review>)
  {
    predicate IsDecided() { status != Pending }

    predicate Live() { status == Pending || status == Approved }
  }

  datatype LeaveRules = LeaveRules(
    maxConsecutiveDays: int,
    minNoticeDays: int,
    allowNegativeBalance: bool,
    excludeWeeklyOff: bool)

  /** What a call reads besides the requests. Leave types are never erased, only marked
      deleted, so a type's id is its position. */
  datatype Environment = Environment(
    staff: map<EmployeeId, Attendance.Staff>,
    types: seq<LeaveType>,
    rules: LeaveRules,
    today: Day)

  datatype Application = Application(
    employeeId: EmployeeId,
    leaveTypeId: LeaveTypeId,
    startDate: Attendance.Instant,
    endDate: Attendance.Instant,
    halfDay: bool)

  datatype Error =
    | EndBeforeStart
    | HalfDayNotSingleDay
    | EmployeeNotFound
    | TypeNotFound
    | TypeInactive
    | NotEnoughNotice
    | NoWorkingDays
    | TooManyDays
    | Overlapping
    | BalanceExceeded
    | RequestNotFound
    | AlreadyDecided

  // ---- day counting -----------------------------------------------------------------------

  /** roundDays: two decimals. */
  function RoundDays(v: real): real {
    RoundHalfAway(v * 100.0) as real / 100.0
  }

  /** Rounding to two decimals changes nothing exactly on amounts that have two decimals. */
  lemma RoundDaysExactIff(v: real)
    ensures RoundDays(v) == v <==> (v * 100.0).Floor as real == v * 100.0
  {
    var hundredths := v * 100.0;
    RoundHalfAwayOfInt(hundredths.Floor);
    assert RoundDays(v) == v <==> RoundHalfAway(hundredths) as real == hundredths;
  }

  /** A number of whole or half days. */
  predicate InHalves(days: real) {
    (days * 2.0).Floor as real == days * 2.0
  }

  lemma HalvesRoundExactly(days: real)
    requires InHalves(days)
    ensures RoundDays(days) == days
  {
    var halves := (days * 2.0).Floor;
    assert days * 100.0 == (halves * 50) as real;
    RoundDaysExactIff(days);
  }

  predicate Counted(shift: Option<Shift>, excludeWeeklyOff: bool, day: Day) {
    !(excludeWeeklyOff && shift.Some? && shift.value.IsWeeklyOff(Weekday(day)))
  }

  /** The days of a range the roster expects the employee on. */
  function WorkingDays(range: DateRange, shift: Option<Shift>, excludeWeeklyOff: bool): set<Day> {
    set day | range.from <= day <= range.to && Counted(shift, excludeWeeklyOff, day)
  }

  /** How much leave a request takes: half a day, or its working days. */
  function LeaveDays(range: DateRange, halfDay: bool, shift: Option<Shift>, excludeWeeklyOff: bool): real {
    if halfDay && range.from == range.to then 0.5 else |WorkingDays(range, shift, excludeWeeklyOff)| as real
  }

  lemma NextWorkingDay(from: Day, day: Day, shift: Option<Shift>, excludeWeeklyOff: bool)
    requires from <= day
    ensures |WorkingDays(DateRange(from, day), shift, excludeWeeklyOff)|
         == |WorkingDays(DateRange(from, day - 1), shift, excludeWeeklyOff)|
            + if Counted(shift, excludeWeeklyOff, day) then 1 else 0
  {
    var before := WorkingDays(DateRange(from, day - 1), shift, excludeWeeklyOff);
    var after := WorkingDays(DateRange(from, day), shift, excludeWeeklyOff);
    assert after == if Counted(shift, excludeWeeklyOff, day) then before + {day} else before;
  }

  lemma WholeDaysRoundExactly(count: int)
    ensures RoundDays(count as real) == count as real && InHalves(count as real)
  {
    assert count as real * 2.0 == (count * 2) as real;
    HalvesRoundExactly(count as real);
  }

  /** countLeaveDays counts exactly the working days of the range. */
  method CountLeaveDays(range: DateRange, halfDay: bool, shift: Option<Shift>, excludeWeeklyOff: bool)
    returns (days: real)
    ensures days == LeaveDays(range, halfDay, shift, excludeWeeklyOff)
  {
    if halfDay && range.from == range.to {
      return 0.5;
    }
    days := 0.0;
    var day := range.from;
    while day <= range.to
      invariant range.from <= day
      invariant day <= range.to + 1 || day == range.from
      invariant days == |WorkingDays(DateRange(range.from, day - 1), shift, excludeWeeklyOff)| as real
      decreases range.to - day
    {
      NextWorkingDay(range.from, day, shift, excludeWeeklyOff);
      if Counted(shift, excludeWeeklyOff, day) {
        days := days + 1.0;
      }
      day := day + 1;
    }
    assert WorkingDays(DateRange(range.from, day - 1), shift, excludeWeeklyOff)
        == WorkingDays(range, shift, excludeWeeklyOff);
    WholeDaysRoundExactly(|WorkingDays(range, shift, excludeWeeklyOff)|);
    days := RoundDays(days);
  }

  function RangeDays(range: DateRange): set<Day> {
    set day | range.from <= day <= range.to && range.Has(day)
  }

  lemma {:induction false} RangeDaysCount(range: DateRange)
    requires range.from <= range.to + 1
    ensures |RangeDays(range)| == range.Length()
    decreases range.Length()
  {
    if range.from <= range.to {
      var shorter := DateRange(range.from, range.to - 1);
      RangeDaysCount(shorter);
      assert RangeDays(range) == RangeDays(shorter) + {range.to};
    }
  }

  lemma SubsetCount<T>(small: set<T>, large: set<T>)
    requires small <= large
    ensures |small| <= |large|
  {
    assert large == small + (large - small);
  }

  /** A request never takes more days than its range has. */
  lemma LeaveDaysFitRange(range: DateRange, halfDay: bool, shift: Option<Shift>, excludeWeeklyOff: bool)
    requires range.from <= range.to
    ensures LeaveDays(range, halfDay, shift, excludeWeeklyOff) <= range.Length() as real
    ensures InHalves(LeaveDays(range, halfDay, shift, excludeWeeklyOff))
  {
    var working := WorkingDays(range, shift, excludeWeeklyOff);
    RangeDaysCount(range);
    SubsetCount(working, RangeDays(range));
    WholeDaysRoundExactly(|working|);
  }

  // ---- the totals ------------------------------------------------------------------------------

  predicate IsApprovedIn(row: LeaveRequest, employeeId: EmployeeId, types: set<LeaveTypeId>, window: DateRange) {
    row.status == Approved && row.employeeId == employeeId && row.leaveTypeId in types && window.Has(row.range.from)
  }

  function Contribution(row: LeaveRequest, employeeId: EmployeeId, types: set<LeaveTypeId>, window: DateRange): real {
    if IsApprovedIn(row, employeeId, types, window) then row.days else 0.0
  }

  /** SUM(days) over the employee's approved requests of these types that start in the window. */
  function ApprovedDays(rows: seq<LeaveRequest>, employeeId: EmployeeId, types: set<LeaveTypeId>,
                        window: DateRange): real {
    if rows == [] then 0.0
    else
      ApprovedDays(rows[..|rows| - 1], employeeId, types, window)
      + Contribution(rows[|rows| - 1], employeeId, types, window)
  }

  lemma {:induction false} ApprovedDaysAfterUpdate(rows: seq<LeaveRequest>, id: nat, row: LeaveRequest,
                                                   employeeId: EmployeeId, types: set<LeaveTypeId>, window: DateRange)
    requires id < |rows|
    ensures ApprovedDays(rows[id := row], employeeId, types, window)
         == ApprovedDays(rows, employeeId, types, window)
            - Contribution(rows[id], employeeId, types, window) + Contribution(row, employeeId, types, window)
  {
    var last := |rows| - 1;
    if id == last {
      assert rows[id := row][..last] == rows[..last];
    } else {
      assert rows[id := row][..last] == rows[..last][id := row];
      ApprovedDaysAfterUpdate(rows[..last], id, row, employeeId, types, window);
    }
  }

  // ---- the calls ----------------------------------------------------------------------------------

  /** Two ranges overlap when each starts before the other ends. */
  predicate Overlap(a: DateRange, b: DateRange) {
    a.from <= b.to && a.to >= b.from
  }

  /** FindOverlapping is not empty. */
  predicate HasOverlap(rows: seq<LeaveRequest>, employeeId: EmployeeId, range: DateRange) {
    exists i :: 0 <= i < |rows| && rows[i].Live() && rows[i].employeeId == employeeId && Overlap(rows[i].range, range)
  }

  predicate ExceedsBalance(env: Environment, rows: seq<LeaveRequest>, employeeId: EmployeeId, leaveTypeId: LeaveTypeId,
                           start: Day, days: real)
    requires leaveTypeId < |env.types|
  {
    var quota := env.types[leaveTypeId].annualQuotaDays;
    && quota > 0.0
    && !env.rules.allowNegativeBalance
    && ApprovedDays(rows, employeeId, {leaveTypeId}, CalendarYear(YearOf(start))) + days > quota
  }

  predicate TypeFound(env: Environment, leaveTypeId: LeaveTypeId) {
    leaveTypeId < |env.types| && !env.types[leaveTypeId].deleted
  }

  function RangeOf(application: Application): DateRange {
    DateRange(Attendance.DateOnly(application.startDate), Attendance.DateOnly(application.endDate))
  }

  /** The row an application adds, or the first check it fails. */
  function Filed(env: Environment, rows: seq<LeaveRequest>, application: Application): Result<LeaveRequest, Error> {
    var range := RangeOf(application);
    var e, t := application.employeeId, application.leaveTypeId;
    if range.to < range.from then Failure(EndBeforeStart)
    else if application.halfDay && range.from != range.to then Failure(HalfDayNotSingleDay)
    else if e !in env.staff then Failure(EmployeeNotFound)
    else if !TypeFound(env, t) then Failure(TypeNotFound)
    else if !env.types[t].active then Failure(TypeInactive)
    else if env.rules.minNoticeDays > 0 && range.from < env.today + env.rules.minNoticeDays
      then Failure(NotEnoughNotice)
    else
      var days := LeaveDays(range, application.halfDay, env.staff[e].shift, env.rules.excludeWeeklyOff);
      if days <= 0.0 then Failure(NoWorkingDays)
      else if env.rules.maxConsecutiveDays > 0 && days > env.rules.maxConsecutiveDays as real then Failure(TooManyDays)
      else if HasOverlap(rows, e, range) then Failure(Overlapping)
      else if ExceedsBalance(env, rows, e, t, range.from, days) then Failure(BalanceExceeded)
      else Success(LeaveRequest(e, t, range, days, application.halfDay, Pending, None))
  }

  /** decide: the reviewed row. Only an approval looks at the type and the balance again. */
  function Decided(env: Environment, rows: seq<LeaveRequest>, id: nat, status: Status,
                   review: Review): Result<LeaveRequest, Error> {
    if id >= |rows| then Failure(RequestNotFound)
    else
      var row := rows[id];
      if row.IsDecided() then Failure(AlreadyDecided)
      else if status == Approved && !TypeFound(env, row.leaveTypeId) then Failure(TypeNotFound)
      else if status == Approved && ExceedsBalance(env, rows, row.employeeId, row.leaveTypeId, row.range.from, row.days)
        then Failure(BalanceExceeded)
      else Success(row.(status := status, review := Some(review)))
  }

  function Withdrawn(rows: seq<LeaveRequest>, id: nat): Result<LeaveRequest, Error> {
    if id >= |rows| then Failure(RequestNotFound)
    else if rows[id].IsDecided() then Failure(AlreadyDecided)
    else Success(rows[id].(status := Cancelled))
  }

  datatype Call =
    | Request(env: Environment, application: Application)
    | Approve(env: Environment, id: nat, review: Review)
    | Reject(env: Environment, id: nat, review: Review)
    | Cancel(id: nat)

  function AfterCall(rows: seq<LeaveRequest>, call: Call): seq<LeaveRequest> {
    match call
    case Request(env, application) =>
      (match Filed(env, rows, application)
       case Success(row) => rows + [row]
       case Failure(_) => rows)
    case Approve(env, id, review) =>
      (match Decided(env, rows, id, Approved, review)
       case Success(row) => rows[id := row]
       case Failure(_) => rows)
    case Reject(env, id, review) =>
      (match Decided(env, rows, id, Rejected, review)
       case Success(row) => rows[id := row]
       case Failure(_) => rows)
    case Cancel(id) =>
      (match Withdrawn(rows, id)
       case Success(row) => rows[id := row]
       case Failure(_) => rows)
  }

  function Run(rows: seq<LeaveRequest>, calls: seq<Call>): seq<LeaveRequest> {
    if calls == [] then rows else AfterCall(Run(rows, calls[..|calls| - 1]), calls[|calls| - 1])
  }

  // ---- the service -----------------------------------------------------------------------------------

  datatype Balance = Balance(
    leaveTypeId: LeaveTypeId,
    entitled: real,
    taken: real,
    pending: real,
    remaining: real,
    unlimited: bool)

  /** At most this many pending requests are read for the pending column. */
  const PENDING_BALANCE_LIMIT := 200

  predicate IsPendingIn(row: LeaveRequest, employeeId: EmployeeId, window: DateRange) {
    row.status == Pending && row.employeeId == employeeId && window.Has(row.range.from)
  }

  /** The listing's order: latest start first, ties by id. */
  predicate ListedBefore(rows: seq<LeaveRequest>, j: nat, i: nat)
    requires i < |rows| && j < |rows|
  {
    rows[j].range.from > rows[i].range.from || (rows[j].range.from == rows[i].range.from && j < i)
  }

  /** How many of the employee's first n requests are pending in the window and listed before i. */
  function Rank(rows: seq<LeaveRequest>, employeeId: EmployeeId, window: DateRange, i: nat, n: nat): nat
    requires i < |rows| && n <= |rows|
  {
    if n == 0 then 0
    else
      Rank(rows, employeeId, window, i, n - 1)
      + if IsPendingIn(rows[n - 1], employeeId, window) && ListedBefore(rows, n - 1, i) then 1 else 0
  }

  predicate OnPage(rows: seq<LeaveRequest>, employeeId: EmployeeId, window: DateRange, i: nat)
    requires i < |rows|
  {
    IsPendingIn(rows[i], employeeId, window) && Rank(rows, employeeId, window, i, |rows|) < PENDING_BALANCE_LIMIT
  }

  /** The pending requests that the limited listing returns, among the first n. */
  function Page(rows: seq<LeaveRequest>, employeeId: EmployeeId, window: DateRange, n: nat): seq<LeaveRequest>
    requires n <= |rows|
  {
    if n == 0 then []
    else
      Page(rows, employeeId, window, n - 1) + if OnPage(rows, employeeId, window, n - 1) then [rows[n - 1]] else []
  }

  /** The days of the requests of one type. */
  function DaysOfType(rows: seq<LeaveRequest>, t: LeaveTypeId): real {
    if rows == [] then 0.0
    else
      var last := rows[|rows| - 1];
      DaysOfType(rows[..|rows| - 1], t) + if last.leaveTypeId == t then last.days else 0.0
  }

  predicate IsListed(types: seq<LeaveType>, t: LeaveTypeId) {
    t < |types| && types[t].active && !types[t].deleted
  }

  function BalanceOf(rows: seq<LeaveRequest>, types: seq<LeaveType>, t: LeaveTypeId, employeeId: EmployeeId,
                     year: int): Balance
    requires t < |types|
  {
    var quota := types[t].annualQuotaDays;
    var taken := RoundDays(ApprovedDays(rows, employeeId, {t}, CalendarYear(year)));
    var pending := RoundDays(DaysOfType(Page(rows, employeeId, CalendarYear(year), |rows|), t));
    Balance(t, quota, taken, pending, RoundDays(quota - taken), quota == 0.0)
  }

  /** The lines of the listed types among the first n. */
  function Lines(rows: seq<LeaveRequest>, types: seq<LeaveType>, n: nat, employeeId: EmployeeId,
                 year: int): seq<Balance>
    requires n <= |types|
  {
    if n == 0 then []
    else
      Lines(rows, types, n - 1, employeeId, year)
      + if IsListed(types, n - 1) then [BalanceOf(rows, types, n - 1, employeeId, year)] else []
  }

  class LeaveService {
    var requests: seq<LeaveRequest>
    const register: Attendance.AttendanceService

    constructor (register: Attendance.AttendanceService)
      ensures requests == [] && this.register == register
    {
      requests := [];
      this.register := register;
    }

    /** assertBalance */
    method AssertBalance(env: Environment, employeeId: EmployeeId, leaveTypeId: LeaveTypeId, start: Day, days: real)
      returns (exceeded: bool)
      requires leaveTypeId < |env.types|
      ensures exceeded == ExceedsBalance(env, requests, employeeId, leaveTypeId, start, days)
    {
      var quota := env.types[leaveTypeId].annualQuotaDays;
      if quota <= 0.0 || env.rules.allowNegativeBalance {
        return false;
      }
      var used := ApprovedDays(requests, employeeId, {leaveTypeId}, CalendarYear(YearOf(start)));
      return used + days > quota;
    }

    method Request(env: Environment, application: Application) returns (result: Result<LeaveRequest, Error>)
      modifies this
      ensures requests == AfterCall(old(requests), Call.Request(env, application))
      ensures result == Filed(env, old(requests), application)
    {
      var start, end := Attendance.DateOnly(application.startDate), Attendance.DateOnly(application.endDate);
      if end < start {
        return Failure(EndBeforeStart);
      }
      if application.halfDay && start != end {
        return Failure(HalfDayNotSingleDay);
      }
      if application.employeeId !in env.staff {
        return Failure(EmployeeNotFound);
      }
      if !TypeFound(env, application.leaveTypeId) {
        return Failure(TypeNotFound);
      }
      if !env.types[application.leaveTypeId].active {
        return Failure(TypeInactive);
      }
      if env.rules.minNoticeDays > 0 && start < env.today + env.rules.minNoticeDays {
        return Failure(NotEnoughNotice);
      }
      var shift := env.staff[application.employeeId].shift;
      var days := CountLeaveDays(DateRange(start, end), application.halfDay, shift, env.rules.excludeWeeklyOff);
      if days <= 0.0 {
        return Failure(NoWorkingDays);
      }
      if env.rules.maxConsecutiveDays > 0 && days > env.rules.maxConsecutiveDays as real {
        return Failure(TooManyDays);
      }
      if HasOverlap(requests, application.employeeId, DateRange(start, end)) {
        return Failure(Overlapping);
      }
      var exceeded := AssertBalance(env, application.employeeId, application.leaveTypeId, start, days);
      if exceeded {
        return Failure(BalanceExceeded);
      }
      var row := LeaveRequest(application.employeeId, application.leaveTypeId, DateRange(start, end), days,
                              application.halfDay, Pending, None);
      requests := requests + [row];
      return Success(row);
    }

    method Decide(env: Environment, id: nat, status: Status, review: Review)
      returns (result: Result<LeaveRequest, Error>)
      modifies this`requests
      ensures result == Decided(env, old(requests), id, status, review)
      ensures requests == if result.Success? then old(requests)[id := result.value] else old(requests)
    {
      if id >= |requests| {
        return Failure(RequestNotFound);
      }
      var row := requests[id];
      if row.IsDecided() {
        return Failure(AlreadyDecided);
      }
      if status == Approved {
        if !TypeFound(env, row.leaveTypeId) {
          return Failure(TypeNotFound);
        }
        var exceeded := AssertBalance(env, row.employeeId, row.leaveTypeId, row.range.from, row.days);
        if exceeded {
          return Failure(BalanceExceeded);
        }
      }
      row := row.(status := status, review := Some(review));
      requests := requests[id := row];
      return Success(row);
    }

    /** An approval also marks the leave on the attendance register, best effort. */
    method Approve(env: Environment, id: nat, review: Review, insertFails: set<Day>, lookupFailsOn: Option<Day>)
      returns (result: Result<LeaveRequest, Error>)
      modifies this, register
      ensures requests == AfterCall(old(requests), Call.Approve(env, id, review))
      ensures result == Decided(env, old(requests), id, Approved, review)
      ensures register.State() ==
              if result.Failure? then old(register.State())
              else Attendance.AfterCall(old(register.State()),
                     Attendance.MarkLeave(result.value.employeeId, result.value.range, insertFails, lookupFailsOn))
    {
      result := Decide(env, id, Approved, review);
      if result.Success? {
        register.MarkLeave(result.value.employeeId, result.value.range, insertFails, lookupFailsOn);
      }
    }

    method Reject(env: Environment, id: nat, review: Review) returns (result: Result<LeaveRequest, Error>)
      modifies this`requests
      ensures requests == AfterCall(old(requests), Call.Reject(env, id, review))
      ensures result == Decided(env, old(requests), id, Rejected, review)
    {
      result := Decide(env, id, Rejected, review);
    }

    method Cancel(id: nat) returns (result: Result<LeaveRequest, Error>)
      modifies this`requests
      ensures requests == AfterCall(old(requests), Call.Cancel(id))
      ensures result == Withdrawn(old(requests), id)
    {
      if id >= |requests| {
        return Failure(RequestNotFound);
      }
      if requests[id].IsDecided() {
        return Failure(AlreadyDecided);
      }
      requests := requests[id := requests[id].(status := Cancelled)];
      return Success(requests[id]);
    }

    /** One line for each active type. */
    method Balances(env: Environment, employeeId: EmployeeId, year: int) returns (result: Result<seq<Balance>, Error>)
      ensures result == if employeeId in env.staff
                        then Success(Lines(requests, env.types, |env.types|, employeeId, year))
                        else Failure(EmployeeNotFound)
    {
      if employeeId !in env.staff {
        return Failure(EmployeeNotFound);
      }
      var window := CalendarYear(year);
      var pendingByType := SumPending(Page(requests, employeeId, window, |requests|));
      var lines: seq<Balance> := [];
      for t := 0 to |env.types|
        invariant lines == Lines(requests, env.types, t, employeeId, year)
      {
        if IsListed(env.types, t) {
          var taken := RoundDays(ApprovedDays(requests, employeeId, {t}, window));
          var pending := RoundDays(if t in pendingByType then pendingByType[t] else 0.0);
          var quota := env.types[t].annualQuotaDays;
          lines := lines + [Balance(t, quota, taken, pending, RoundDays(quota - taken), quota == 0.0)];
        }
      }
      return Success(lines);
    }

    /** The loop that groups the listed pending requests by type. */
    static method SumPending(page: seq<LeaveRequest>) returns (byType: map<LeaveTypeId, real>)
      ensures forall t: LeaveTypeId :: (if t in byType then byType[t] else 0.0) == DaysOfType(page, t)
    {
      byType := map[];
      for i := 0 to |page|
        invariant forall t: LeaveTypeId :: (if t in byType then byType[t] else 0.0) == DaysOfType(page[..i], t)
      {
        assert page[..i + 1][..i] == page[..i];
        var t := page[i].leaveTypeId;
        byType := byType[t := (if t in byType then byType[t] else 0.0) + page[i].days];
      }
      assert page[..|page|] == page;
    }
  }
}
