/** The attendance register (backend/internal/service/hrm_attendance_service.go): punches,
    manual records and leave markings of one business. Instants are nanoseconds of the shop's
    wall clock counted from the start of day 0. */
module Attendance {
  import opened Calendar
  import opened Numbers
  import opened Sequences
  import opened Shifts
  import opened Wrappers

  type EmployeeId = nat
  type Instant = Nanoseconds

  // ---- data -----------------------------------------------------------------------------

  datatype Status = Unset | Present | Late | HalfDay | Absent | OnLeave | Holiday | WeeklyOff

  datatype Source = Clock | Manual | System

  datatype Row = Row(
    id: nat,
    employeeId: EmployeeId,
    workDate: Day,
    clockIn: Option<Instant>,
    clockOut: Option<Instant>,
    status: Status,
    source: Source,
    workedMinutes: int,
    lateMinutes: int,
    earlyLeaveMinutes: int,
    overtimeMinutes: int)

  datatype AttendanceRules = AttendanceRules(
    fullDayMinutes: int,
    halfDayMinutes: int,
    overtimeEnabled: bool,
    minOvertimeMinutes: int,
    allowFutureEntry: bool)

  /** A member of staff: on the payroll or not, and the shift they are rostered on, if any. */
  datatype Staff = Staff(active: bool, shift: Option<Shift>)

  /** What a call reads besides the register. */
  datatype Environment = Environment(staff: map<EmployeeId, Staff>, rules: AttendanceRules, today: Day)

  datatype Error =
    | EmployeeNotFound
    | NotActive
    | AlreadyClockedIn
    | NotClockedIn
    | AlreadyClockedOut
    | OutBeforeIn
    | FutureDate

  datatype ManualEntry = ManualEntry(
    employeeId: EmployeeId,
    workDate: Instant,
    clockIn: Option<Instant>,
    clockOut: Option<Instant>,
    status: Status)

  datatype Register = Register(rows: seq<Row>, nextId: nat)

  // ---- minute arithmetic ------------------------------------------------------------------

  /** The calendar day an instant falls on. */
  function DateOnly(t: Instant): Day { t / DAY }

  /** at.Hour() * 60 + at.Minute() */
  function MinuteOfClock(t: Instant): int { t % DAY / MINUTE }

  /** Whole minutes of a duration, truncated towards zero. */
  function WholeMinutes(d: Nanoseconds): int {
    if d >= 0 then d / MINUTE else -((-d) / MINUTE)
  }

  /** Minutes the roster expects on a date; none on a rostered day off or without a shift. */
  function Scheduled(shift: Option<Shift>, workDate: Day): int {
    if shift.None? || shift.value.IsWeeklyOff(Weekday(workDate)) then 0 else shift.value.ScheduledMinutes()
  }

  function BreakOf(shift: Option<Shift>): nat {
    if shift.None? then 0 else shift.value.breakMinutes
  }

  function LateMinutes(shift: Option<Shift>, workDate: Day, at: Instant): int {
    if shift.None? || shift.value.IsWeeklyOff(Weekday(workDate)) then 0
    else
      var s := shift.value;
      var clock := MinuteOfClock(at);
      var arrival := if s.CrossesMidnight() && clock < s.StartMinutes() then clock + MINUTES_PER_DAY else clock;
      Max(0, arrival - (s.StartMinutes() + s.graceMinutes))
  }

  /** Lateness is measured round the clock for a shift that crosses midnight - a punch at 00:30
      for a 22:00 start is two and a half hours late - and from the start of the day otherwise;
      the grace period comes off, and being early is never negative. */
  lemma LatenessIsClockDistance(s: Shift, workDate: Day, at: Instant)
    requires s.Stored() && !s.IsWeeklyOff(Weekday(workDate))
    ensures s.CrossesMidnight() ==>
              LateMinutes(Some(s), workDate, at)
              == Max(0, (MinuteOfClock(at) - s.StartMinutes()) % MINUTES_PER_DAY - s.graceMinutes)
    ensures !s.CrossesMidnight() ==>
              LateMinutes(Some(s), workDate, at) == Max(0, MinuteOfClock(at) - s.StartMinutes() - s.graceMinutes)
  {
    var clock, start := MinuteOfClock(at), s.StartMinutes();
    assert 0 <= clock < MINUTES_PER_DAY && 0 <= start < MINUTES_PER_DAY;
    assert (clock - start) % MINUTES_PER_DAY
        == if clock < start then clock - start + MINUTES_PER_DAY else clock - start;
  }

  function WorkedMinutes(row: Row, shift: Option<Shift>): int
    requires row.clockIn.Some? && row.clockOut.Some?
  {
    Max(0, WholeMinutes(row.clockOut.value - row.clockIn.value) - BreakOf(shift))
  }

  function Overtime(worked: int, scheduled: int, rules: AttendanceRules): int {
    if rules.overtimeEnabled && worked > scheduled && worked - scheduled >= rules.minOvertimeMinutes
    then worked - scheduled else 0
  }

  function DerivedStatus(worked: int, late: int, rules: AttendanceRules): Status {
    if worked >= rules.fullDayMinutes then (if late > 0 then Late else Present)
    else if worked >= rules.halfDayMinutes then HalfDay
    else Absent
  }

  /** The derived minute columns and status of a closed day. */
  function WithWorkedTime(row: Row, shift: Option<Shift>, rules: AttendanceRules): Row {
    if row.clockIn.None? || row.clockOut.None? then row
    else
      var worked, scheduled := WorkedMinutes(row, shift), Scheduled(shift, row.workDate);
      row.(workedMinutes := worked,
           earlyLeaveMinutes := Max(0, scheduled - worked),
           overtimeMinutes := Overtime(worked, scheduled, rules),
           status := DerivedStatus(worked, row.lateMinutes, rules))
  }

  // ---- the table -----------------------------------------------------------------------------

  predicate IsDay(row: Row, employeeId: EmployeeId, workDate: Day) {
    row.employeeId == employeeId && row.workDate == workDate
  }

  function FindDay(rows: seq<Row>, employeeId: EmployeeId, workDate: Day): (found: Option<Row>)
    ensures found.Some? ==> found.value in rows && IsDay(found.value, employeeId, workDate)
    ensures found.None? ==> forall row | row in rows :: !IsDay(row, employeeId, workDate)
  {
    if rows == [] then None
    else if IsDay(rows[0], employeeId, workDate) then Some(rows[0])
    else FindDay(rows[1..], employeeId, workDate)
  }

  function Create(r: Register, row: Row): Register {
    Register(r.rows + [row.(id := r.nextId)], r.nextId + 1)
  }

  /** UPDATE ... WHERE id = ?: everything but the employee and the date. */
  function Update(r: Register, row: Row): Register {
    r.(rows := Map((stored: Row) =>
      if stored.id == row.id then row.(employeeId := stored.employeeId, workDate := stored.workDate) else stored,
      r.rows))
  }

  function HasOtherId(id: nat): Row -> bool {
    (row: Row) => row.id != id
  }

  function Without(r: Register, id: nat): Register {
    r.(rows := Filter(HasOtherId(id), r.rows))
  }

  /** The id a written row ends up with. */
  function WrittenId(r: Register, row: Row): nat {
    match FindDay(r.rows, row.employeeId, row.workDate)
    case Some(existing) => existing.id
    case None => r.nextId
  }

  /** Replaces the row the date already holds, or adds one. */
  function Write(r: Register, row: Row): Register {
    match FindDay(r.rows, row.employeeId, row.workDate)
    case Some(existing) => Update(r, row.(id := existing.id))
    case None => Create(r, row)
  }

  // ---- the calls --------------------------------------------------------------------------------

  /** The row a clock-in writes; its id is settled by Write. */
  function ClockInRow(env: Environment, rows: seq<Row>, employeeId: EmployeeId, at: Instant): Result<Row, Error> {
    if employeeId !in env.staff then Failure(EmployeeNotFound)
    else if !env.staff[employeeId].active then Failure(NotActive)
    else
      var existing := FindDay(rows, employeeId, DateOnly(at));
      if existing.Some? && existing.value.clockIn.Some? then Failure(AlreadyClockedIn)
      else
        var late := LateMinutes(env.staff[employeeId].shift, DateOnly(at), at);
        Success(Row(0, employeeId, DateOnly(at), Some(at), None, if late > 0 then Late else Present, Clock,
                    0, late, 0, 0))
  }

  /** findOpenDay: the punch's own day while it is open, else the day before if that one is. */
  function OpenDay(rows: seq<Row>, employeeId: EmployeeId, at: Instant): Result<Row, Error> {
    var today := FindDay(rows, employeeId, DateOnly(at));
    var previous := FindDay(rows, employeeId, DateOnly(at) - 1);
    if today.Some? && today.value.clockOut.None? then Success(today.value)
    else if previous.Some? && previous.value.clockIn.Some? && previous.value.clockOut.None? then Success(previous.value)
    else if today.Some? then Success(today.value)
    else Failure(NotClockedIn)
  }

  /** The closed row a clock-out writes. */
  function ClockOutRow(env: Environment, rows: seq<Row>, employeeId: EmployeeId, at: Instant): Result<Row, Error> {
    if employeeId !in env.staff then Failure(EmployeeNotFound)
    else
      match OpenDay(rows, employeeId, at)
      case Failure(e) => Failure(e)
      case Success(row) =>
        if row.clockIn.None? then Failure(NotClockedIn)
        else if row.clockOut.Some? then Failure(AlreadyClockedOut)
        else if at < row.clockIn.value then Failure(OutBeforeIn)
        else Success(WithWorkedTime(row.(clockOut := Some(at)), env.staff[employeeId].shift, env.rules))
  }

  /** The row of a manual record before its status is settled. */
  function PlainRow(shift: Option<Shift>, entry: ManualEntry): Row {
    var date := DateOnly(entry.workDate);
    var late := if entry.clockIn.Some? then LateMinutes(shift, date, entry.clockIn.value) else 0;
    Row(0, entry.employeeId, date, entry.clockIn, entry.clockOut, entry.status, Manual, 0, late, 0, 0)
  }

  /** The row a manual entry writes. */
  function RecordRow(env: Environment, entry: ManualEntry): Result<Row, Error> {
    var date := DateOnly(entry.workDate);
    if entry.employeeId !in env.staff then Failure(EmployeeNotFound)
    else if !env.rules.allowFutureEntry && date > env.today then Failure(FutureDate)
    else if entry.clockIn.Some? && entry.clockOut.Some? && entry.clockOut.value < entry.clockIn.value
      then Failure(OutBeforeIn)
    else
      var shift := env.staff[entry.employeeId].shift;
      var row := WithWorkedTime(PlainRow(shift, entry), shift, env.rules);
      Success(if entry.status != Unset then row.(status := entry.status)
              else if row.status == Unset then row.(status := Absent)
              else row)
  }

  /** The row a leave puts on a day. */
  function LeaveRow(employeeId: EmployeeId, day: Day): Row {
    Row(0, employeeId, day, None, None, OnLeave, System, 0, 0, 0, 0)
  }

  /** One day of a leave: a day that has a row is left alone, an insert that fails is skipped. */
  function MarkDay(r: Register, employeeId: EmployeeId, day: Day, insertFails: set<Day>): Register {
    if FindDay(r.rows, employeeId, day).Some? || day in insertFails then r
    else Create(r, LeaveRow(employeeId, day))
  }

  /** markAttendance over the first `days` days of a leave. */
  function MarkDays(r: Register, employeeId: EmployeeId, start: Day, days: nat, insertFails: set<Day>): Register
    decreases days
  {
    if days == 0 then r
    else MarkDays(MarkDay(r, employeeId, start, insertFails), employeeId, start + 1, days - 1, insertFails)
  }

  /** Days of a leave that are looked at before a lookup fails, if one does. */
  function DaysLookedAt(leave: DateRange, lookupFailsOn: Option<Day>): nat {
    var last := if lookupFailsOn.Some? && leave.Has(lookupFailsOn.value) then lookupFailsOn.value - 1 else leave.to;
    if last < leave.from then 0 else last - leave.from + 1
  }

  datatype Call =
    | ClockIn(env: Environment, employeeId: EmployeeId, at: Instant)
    | ClockOut(env: Environment, employeeId: EmployeeId, at: Instant)
    | Record(env: Environment, entry: ManualEntry)
    | MarkLeave(employeeId: EmployeeId, leave: DateRange, insertFails: set<Day>, lookupFailsOn: Option<Day>)
    | Delete(id: nat)

  function AfterCall(r: Register, call: Call): Register {
    match call
    case ClockIn(env, e, at) =>
      (match ClockInRow(env, r.rows, e, at)
       case Success(row) => Write(r, row)
       case Failure(_) => r)
    case ClockOut(env, e, at) =>
      (match ClockOutRow(env, r.rows, e, at)
       case Success(row) => Update(r, row)
       case Failure(_) => r)
    case Record(env, entry) =>
      (match RecordRow(env, entry)
       case Success(row) => Write(r, row)
       case Failure(_) => r)
    case MarkLeave(e, leave, insertFails, lookupFailsOn) =>
      MarkDays(r, e, leave.from, DaysLookedAt(leave, lookupFailsOn), insertFails)
    case Delete(id) =>
      Without(r, id)
  }

  function Run(r: Register, calls: seq<Call>): Register {
    if calls == [] then r else AfterCall(Run(r, calls[..|calls| - 1]), calls[|calls| - 1])
  }

  // ---- the service ---------------------------------------------------------------------------------

  class AttendanceService {
    var rows: seq<Row>
    var nextId: nat

    constructor ()
      ensures State() == Register([], 0)
    {
      rows, nextId := [], 0;
    }

    function State(): Register
      reads this
    {
      Register(rows, nextId)
    }

    method CreateRow(row: Row)
      modifies this
      ensures State() == Create(old(State()), row)
    {
      rows := rows + [row.(id := nextId)];
      nextId := nextId + 1;
    }

    method UpdateRow(row: Row)
      modifies this`rows
      ensures State() == Update(old(State()), row)
    {
      for i := 0 to |rows|
        invariant |rows| == |old(rows)|
        invariant rows[..i] == Update(old(State()), row).rows[..i]
        invariant rows[i..] == old(rows)[i..]
      {
        assert rows[i] == rows[i..][0];
        if rows[i].id == row.id {
          rows := rows[i := row.(employeeId := rows[i].employeeId, workDate := rows[i].workDate)];
        }
      }
    }

    method WriteRow(row: Row) returns (written: Row)
      modifies this
      ensures State() == Write(old(State()), row)
      ensures written == row.(id := WrittenId(old(State()), row))
    {
      var existing := FindDay(rows, row.employeeId, row.workDate);
      if existing.Some? {
        written := row.(id := existing.value.id);
        UpdateRow(written);
      } else {
        written := row.(id := nextId);
        CreateRow(row);
      }
    }

    /** Fills in the derived columns of a row step by step. */
    method ApplyWorkedTime(closed: Row, shift: Option<Shift>, rules: AttendanceRules) returns (row: Row)
      ensures row == WithWorkedTime(closed, shift, rules)
    {
      row := closed;
      if row.clockIn.None? || row.clockOut.None? {
        return;
      }
      var worked := WholeMinutes(row.clockOut.value - row.clockIn.value);
      var scheduled := 0;
      if shift.Some? {
        worked := worked - shift.value.breakMinutes;
        if !shift.value.IsWeeklyOff(Weekday(row.workDate)) {
          scheduled := shift.value.ScheduledMinutes();
        }
      }
      if worked < 0 {
        worked := 0;
      }
      assert worked == WorkedMinutes(closed, shift) && scheduled == Scheduled(shift, closed.workDate);
      row := row.(workedMinutes := worked);
      if scheduled > 0 && worked < scheduled {
        row := row.(earlyLeaveMinutes := scheduled - worked);
      } else {
        row := row.(earlyLeaveMinutes := 0);
      }
      assert row == closed.(workedMinutes := worked, earlyLeaveMinutes := Max(0, scheduled - worked));
      row := row.(overtimeMinutes := 0);
      if rules.overtimeEnabled && worked > scheduled {
        var overtime := worked - scheduled;
        if overtime >= rules.minOvertimeMinutes {
          row := row.(overtimeMinutes := overtime);
        }
      }
      assert row.overtimeMinutes == Overtime(worked, scheduled, rules);
      row := Grade(row, worked, rules);
    }

    /** The status a closed day gets from its worked minutes. */
    method Grade(closed: Row, worked: int, rules: AttendanceRules) returns (row: Row)
      ensures row == closed.(status := DerivedStatus(worked, closed.lateMinutes, rules))
    {
      row := closed;
      if worked >= rules.fullDayMinutes {
        row := row.(status := Present);
      } else if worked >= rules.halfDayMinutes {
        row := row.(status := HalfDay);
      } else {
        row := row.(status := Absent);
      }
      if row.lateMinutes > 0 && row.status == Present {
        row := row.(status := Late);
      }
    }

    method ClockIn(env: Environment, employeeId: EmployeeId, at: Instant) returns (result: Result<Row, Error>)
      modifies this
      ensures State() == AfterCall(old(State()), Call.ClockIn(env, employeeId, at))
      ensures result == match ClockInRow(env, old(rows), employeeId, at)
                        case Failure(e) => Failure(e)
                        case Success(row) => Success(row.(id := WrittenId(old(State()), row)))
    {
      if employeeId !in env.staff {
        return Failure(EmployeeNotFound);
      }
      if !env.staff[employeeId].active {
        return Failure(NotActive);
      }
      var workDate := DateOnly(at);
      var existing := FindDay(rows, employeeId, workDate);
      if existing.Some? && existing.value.clockIn.Some? {
        return Failure(AlreadyClockedIn);
      }
      var row := Row(0, employeeId, workDate, Some(at), None, Present, Clock, 0,
                     LateMinutes(env.staff[employeeId].shift, workDate, at), 0, 0);
      if row.lateMinutes > 0 {
        row := row.(status := Late);
      }
      var written := WriteRow(row);
      return Success(written);
    }

    method ClockOut(env: Environment, employeeId: EmployeeId, at: Instant) returns (result: Result<Row, Error>)
      modifies this`rows
      ensures State() == AfterCall(old(State()), Call.ClockOut(env, employeeId, at))
      ensures result == ClockOutRow(env, old(rows), employeeId, at)
    {
      if employeeId !in env.staff {
        return Failure(EmployeeNotFound);
      }
      var open := OpenDay(rows, employeeId, at);
      if open.Failure? {
        return open;
      }
      var row := open.value;
      if row.clockIn.None? {
        return Failure(NotClockedIn);
      }
      if row.clockOut.Some? {
        return Failure(AlreadyClockedOut);
      }
      if at < row.clockIn.value {
        return Failure(OutBeforeIn);
      }
      row := row.(clockOut := Some(at));
      row := ApplyWorkedTime(row, env.staff[employeeId].shift, env.rules);
      UpdateRow(row);
      return Success(row);
    }

    method Record(env: Environment, entry: ManualEntry) returns (result: Result<Row, Error>)
      modifies this
      ensures State() == AfterCall(old(State()), Call.Record(env, entry))
      ensures result == match RecordRow(env, entry)
                        case Failure(e) => Failure(e)
                        case Success(row) => Success(row.(id := WrittenId(old(State()), row)))
    {
      if entry.employeeId !in env.staff {
        return Failure(EmployeeNotFound);
      }
      var shift := env.staff[entry.employeeId].shift;
      var workDate := DateOnly(entry.workDate);
      if !env.rules.allowFutureEntry && workDate > env.today {
        return Failure(FutureDate);
      }
      if entry.clockIn.Some? && entry.clockOut.Some? && entry.clockOut.value < entry.clockIn.value {
        return Failure(OutBeforeIn);
      }
      var row := Row(0, entry.employeeId, workDate, entry.clockIn, entry.clockOut, entry.status, Manual, 0, 0, 0, 0);
      if entry.clockIn.Some? {
        row := row.(lateMinutes := LateMinutes(shift, workDate, entry.clockIn.value));
      }
      if entry.clockIn.Some? && entry.clockOut.Some? {
        row := ApplyWorkedTime(row, shift, env.rules);
      }
      if entry.status != Unset {
        row := row.(status := entry.status);
      }
      if row.status == Unset {
        row := row.(status := Absent);
      }
      var written := WriteRow(row);
      return Success(written);
    }

    /** Called after a leave is approved: best effort, day by day. */
    method MarkLeave(employeeId: EmployeeId, leave: DateRange, insertFails: set<Day>, lookupFailsOn: Option<Day>)
      modifies this
      ensures State() == AfterCall(old(State()), Call.MarkLeave(employeeId, leave, insertFails, lookupFailsOn))
    {
      var day := leave.from;
      ghost var left: nat := DaysLookedAt(leave, lookupFailsOn);
      while day <= leave.to
        invariant left == DaysLookedAt(DateRange(day, leave.to), lookupFailsOn)
        invariant MarkDays(State(), employeeId, day, left, insertFails)
               == MarkDays(old(State()), employeeId, leave.from, DaysLookedAt(leave, lookupFailsOn), insertFails)
        decreases leave.to - day
      {
        if lookupFailsOn == Some(day) {
          return;
        }
        ghost var before := State();
        if FindDay(rows, employeeId, day).None? && day !in insertFails {
          CreateRow(LeaveRow(employeeId, day));
        }
        assert State() == MarkDay(before, employeeId, day, insertFails);
        day, left := day + 1, left - 1;
      }
    }

    /** Exactly the row with that id goes; an id that is not there is not found. */
    method DeleteRow(id: nat) returns (found: bool)
      modifies this`rows
      ensures State() == AfterCall(old(State()), Delete(id))
      ensures found <==> exists row | row in old(rows) :: row.id == id
      ensures forall row :: row in rows <==> row in old(rows) && row.id != id
      ensures !found ==> rows == old(rows)
    {
      var stored := rows;
      var kept: seq<Row> := [];
      found := false;
      for i := 0 to |stored|
        invariant rows == stored && kept == Filter(HasOtherId(id), stored[..i])
        invariant found <==> exists row | row in stored[..i] :: row.id == id
        invariant !found ==> kept == stored[..i]
      {
        assert stored[..i + 1] == stored[..i] + [stored[i]];
        FilterLast(HasOtherId(id), stored[..i], stored[i]);
        if stored[i].id == id {
          found := true;
        } else {
          kept := kept + [stored[i]];
        }
      }
      assert stored[..|stored|] == stored;
      FilterKeepsAll(HasOtherId(id), stored);
      FilterKeepsOnly(HasOtherId(id), stored);
      rows := kept;
    }
  }

  // ---- what every run keeps ----------------------------------------------------------------------------

  /** Ids are distinct and below the counter; an employee has at most one row per date. */
  predicate Keyed(r: Register) {
    && (forall i :: 0 <= i < |r.rows| ==> r.rows[i].id < r.nextId)
    && (forall i, k :: 0 <= i < k < |r.rows| ==> r.rows[i].id != r.rows[k].id)
    && (forall i, k :: 0 <= i < k < |r.rows| ==> !IsDay(r.rows[i], r.rows[k].employeeId, r.rows[k].workDate))
  }

  lemma CreateKeepsKeys(r: Register, row: Row)
    requires Keyed(r) && FindDay(r.rows, row.employeeId, row.workDate).None?
    ensures Keyed(Create(r, row))
  {
    forall i | 0 <= i < |r.rows|
      ensures !IsDay(r.rows[i], row.employeeId, row.workDate)
    {
      assert r.rows[i] in r.rows;
    }
  }

  /** An update keeps ids, employees and dates. */
  lemma UpdateKeepsKeys(r: Register, row: Row)
    requires Keyed(r)
    ensures Keyed(Update(r, row))
  {
  }

  /** The row found for a date is the only one with its id. */
  lemma FoundRowIsUnique(r: Register, row: Row, id: nat)
    requires Keyed(r) && row in r.rows && id == row.id
    ensures forall i :: 0 <= i < |r.rows| && r.rows[i].id == id ==> r.rows[i] == row
  {
    var k :| 0 <= k < |r.rows| && r.rows[k] == row;
  }

  lemma WriteKeepsKeys(r: Register, row: Row)
    requires Keyed(r)
    ensures Keyed(Write(r, row))
  {
    match FindDay(r.rows, row.employeeId, row.workDate)
    case Some(existing) => UpdateKeepsKeys(r, row.(id := existing.id));
    case None => CreateKeepsKeys(r, row);
  }

  lemma {:induction false} MarkDaysKeepsKeys(r: Register, employeeId: EmployeeId, start: Day, days: nat,
                                             insertFails: set<Day>)
    requires Keyed(r)
    ensures Keyed(MarkDays(r, employeeId, start, days, insertFails))
    decreases days
  {
    if days > 0 {
      if FindDay(r.rows, employeeId, start).None? {
        CreateKeepsKeys(r, LeaveRow(employeeId, start));
      }
      MarkDaysKeepsKeys(MarkDay(r, employeeId, start, insertFails), employeeId, start + 1, days - 1, insertFails);
    }
  }

  lemma {:induction false} FilterKeepsKeyed(rows: seq<Row>, nextId: nat, keep: Row -> bool)
    requires Keyed(Register(rows, nextId))
    ensures Keyed(Register(Filter(keep, rows), nextId))
  {
    if rows != [] {
      FilterKeepsKeyed(rows[1..], nextId, keep);
      var rest := Filter(keep, rows[1..]);
      FilterKeepsOnly(keep, rows[1..]);
      forall i | 0 <= i < |rest|
        ensures rest[i].id != rows[0].id && !IsDay(rows[0], rest[i].employeeId, rest[i].workDate)
      {
        assert rest[i] in rest && rest[i] in rows[1..];
        var k :| 0 <= k < |rows| - 1 && rows[1..][k] == rest[i];
        assert rows[k + 1] == rest[i];
      }
    }
  }

  lemma CallKeepsKeys(r: Register, call: Call)
    requires Keyed(r)
    ensures Keyed(AfterCall(r, call))
  {
    match call
    case ClockIn(env, e, at) =>
      if ClockInRow(env, r.rows, e, at).Success? {
        WriteKeepsKeys(r, ClockInRow(env, r.rows, e, at).value);
      }
    case ClockOut(env, e, at) =>
      if ClockOutRow(env, r.rows, e, at).Success? {
        UpdateKeepsKeys(r, ClockOutRow(env, r.rows, e, at).value);
      }
    case Record(env, entry) =>
      if RecordRow(env, entry).Success? {
        WriteKeepsKeys(r, RecordRow(env, entry).value);
      }
    case MarkLeave(e, leave, insertFails, lookupFailsOn) =>
      MarkDaysKeepsKeys(r, e, leave.from, DaysLookedAt(leave, lookupFailsOn), insertFails);
    case Delete(id) =>
      FilterKeepsKeyed(r.rows, r.nextId, HasOtherId(id));
  }

  lemma {:induction false} RunKeepsKeys(r: Register, calls: seq<Call>)
    requires Keyed(r)
    ensures Keyed(Run(r, calls))
  {
    if calls != [] {
      RunKeepsKeys(r, calls[..|calls| - 1]);
      CallKeepsKeys(Run(r, calls[..|calls| - 1]), calls[|calls| - 1]);
    }
  }

  const EMPTY_REGISTER := Register([], 0)

  // ---- the call behind a row ----------------------------------------------------------------------------

  /** Up to its id, the row is what this call writes on a register with these rows. */
  predicate WrittenBy(rows: seq<Row>, call: Call, row: Row) {
    match call
    case ClockIn(env, e, at) => ClockInRow(env, rows, e, at) == Success(row.(id := 0))
    case ClockOut(env, e, at) => ClockOutRow(env, rows, e, at) == Success(row)
    case Record(env, entry) => RecordRow(env, entry) == Success(row.(id := 0))
    case MarkLeave(e, leave, _, _) => leave.Has(row.workDate) && row.(id := 0) == LeaveRow(e, row.workDate)
    case Delete(_) => false
  }

  lemma WriteWrites(r: Register, written: Row, row: Row)
    requires Keyed(r) && written.id == 0 && row in Write(r, written).rows
    ensures row in r.rows || row.(id := 0) == written
  {
    var after := Write(r, written);
    var i :| 0 <= i < |after.rows| && after.rows[i] == row;
    var existing := FindDay(r.rows, written.employeeId, written.workDate);
    if existing.Some? {
      FoundRowIsUnique(r, existing.value, existing.value.id);
    }
  }

  lemma ClockOutWrites(r: Register, call: Call, row: Row)
    requires Keyed(r) && call.ClockOut? && row in AfterCall(r, call).rows
    ensures row in r.rows || WrittenBy(r.rows, call, row)
  {
    var after := AfterCall(r, call);
    var i :| 0 <= i < |after.rows| && after.rows[i] == row;
    if ClockOutRow(call.env, r.rows, call.employeeId, call.at).Success? {
      var open := OpenDay(r.rows, call.employeeId, call.at).value;
      FoundRowIsUnique(r, open, open.id);
    }
  }

  lemma {:induction false} MarkDaysWrites(r: Register, employeeId: EmployeeId, start: Day, days: nat,
                                          insertFails: set<Day>, row: Row)
    requires row in MarkDays(r, employeeId, start, days, insertFails).rows
    ensures || row in r.rows
            || (start <= row.workDate < start + days && row.(id := 0) == LeaveRow(employeeId, row.workDate))
    decreases days
  {
    if days > 0 {
      MarkDaysWrites(MarkDay(r, employeeId, start, insertFails), employeeId, start + 1, days - 1, insertFails, row);
    }
  }

  lemma CallWrites(r: Register, call: Call, row: Row)
    requires Keyed(r) && row in AfterCall(r, call).rows
    ensures row in r.rows || WrittenBy(r.rows, call, row)
  {
    match call
    case ClockIn(env, e, at) =>
      if ClockInRow(env, r.rows, e, at).Success? {
        WriteWrites(r, ClockInRow(env, r.rows, e, at).value, row);
      }
    case ClockOut(_, _, _) => ClockOutWrites(r, call, row);
    case Record(env, entry) =>
      if RecordRow(env, entry).Success? {
        WriteWrites(r, RecordRow(env, entry).value, row);
      }
    case MarkLeave(e, leave, insertFails, lookupFailsOn) =>
      MarkDaysWrites(r, e, leave.from, DaysLookedAt(leave, lookupFailsOn), insertFails, row);
    case Delete(id) =>
      FilterKeepsOnly(HasOtherId(id), r.rows);
  }

  /** Every row of a reachable register is exactly what one of the calls wrote, and has stood
      there unchanged ever since. */
  lemma {:induction false} EveryRowHasWriter(calls: seq<Call>, row: Row) returns (w: nat)
    requires row in Run(EMPTY_REGISTER, calls).rows
    ensures w < |calls| && WrittenBy(Run(EMPTY_REGISTER, calls[..w]).rows, calls[w], row)
    ensures forall m :: w < m <= |calls| ==> row in Run(EMPTY_REGISTER, calls[..m]).rows
  {
    var n := |calls| - 1;
    var before := Run(EMPTY_REGISTER, calls[..n]);
    RunKeepsKeys(EMPTY_REGISTER, calls[..n]);
    CallWrites(before, calls[n], row);
    assert calls[..|calls|] == calls;
    if row in before.rows {
      w := EveryRowHasWriter(calls[..n], row);
      assert calls[..n][..w] == calls[..w];
      forall m | w < m <= n
        ensures row in Run(EMPTY_REGISTER, calls[..m]).rows
      {
        assert calls[..n][..m] == calls[..m];
      }
    } else {
      w := n;
    }
  }

  /** The minutes of a closed row under the shift and the rules it was written with: worked are
      the whole minutes between the punches less the break, never negative; what is missing from
      the schedule is early leave; what is beyond it is overtime if the rules grant that much. */
  predicate DerivedFrom(shift: Option<Shift>, rules: AttendanceRules, row: Row)
    requires row.clockIn.Some? && row.clockOut.Some?
  {
    var elapsed := (row.clockOut.value - row.clockIn.value) / MINUTE;
    var rest := if shift.None? then 0 else shift.value.breakMinutes;
    var scheduled := if shift.None? || Weekday(row.workDate) in shift.value.weeklyOff then 0
                     else shift.value.ScheduledMinutes();
    var worked := if elapsed > rest then elapsed - rest else 0;
    var more := worked - scheduled;
    && row.clockIn.value <= row.clockOut.value
    && row.workedMinutes == worked
    && row.earlyLeaveMinutes == (if more < 0 then -more else 0)
    && row.overtimeMinutes == (if rules.overtimeEnabled && more > 0 && more >= rules.minOvertimeMinutes
                               then more else 0)
  }

  /** The status a closed day earns: a full day is late or on time, at least half a day is a half
      day, and anything less is an absence. */
  predicate Graded(rules: AttendanceRules, row: Row) {
    && (row.status == Present <==> row.workedMinutes >= rules.fullDayMinutes && row.lateMinutes <= 0)
    && (row.status == Late <==> row.workedMinutes >= rules.fullDayMinutes && row.lateMinutes > 0)
    && (row.status == HalfDay <==> rules.halfDayMinutes <= row.workedMinutes < rules.fullDayMinutes)
    && (row.status == Absent <==>
          row.workedMinutes < rules.halfDayMinutes && row.workedMinutes < rules.fullDayMinutes)
  }

  /** The lateness of an arrival: none without a schedule for the day. */
  predicate LateBy(shift: Option<Shift>, row: Row)
    requires row.clockIn.Some?
  {
    && row.lateMinutes == LateMinutes(shift, row.workDate, row.clockIn.value)
    && (shift.None? || Weekday(row.workDate) in shift.value.weeklyOff ==> row.lateMinutes == 0)
  }

  /** The row has the punch of the clock-out and was open before; only the derived columns and the
      status differ from what it was. */
  predicate ClosedVersionOf(stored: Row, row: Row) {
    && stored.clockOut.None?
    && row == stored.(clockOut := row.clockOut, workedMinutes := row.workedMinutes,
                      earlyLeaveMinutes := row.earlyLeaveMinutes, overtimeMinutes := row.overtimeMinutes,
                      status := row.status)
  }

  /** The row a clock-in opens: that day, that punch, late or present. */
  predicate OpenedBy(env: Environment, e: EmployeeId, at: Instant, row: Row) {
    && row.employeeId == e && e in env.staff && env.staff[e].active
    && row.workDate * DAY <= at < (row.workDate + 1) * DAY
    && row.clockIn == Some(at) && row.clockOut == None && row.source == Clock
    && LateBy(env.staff[e].shift, row) && row.status == (if row.lateMinutes > 0 then Late else Present)
    && NoDerivedMinutes(row)
  }

  /** The row a clock-out closes: an open one of that day or the day before, graded. */
  predicate ClosedBy(rows: seq<Row>, env: Environment, e: EmployeeId, at: Instant, row: Row) {
    && row.employeeId == e && e in env.staff
    && row.workDate * DAY <= at < (row.workDate + 2) * DAY
    && row.clockIn.Some? && row.clockOut == Some(at)
    && (exists stored | stored in rows :: ClosedVersionOf(stored, row))
    && DerivedFrom(env.staff[e].shift, env.rules, row) && Graded(env.rules, row)
  }

  /** The row a manual record writes. An explicit status wins; otherwise a day with both punches is
      graded, and any other is an absence. */
  predicate RecordedBy(env: Environment, entry: ManualEntry, row: Row) {
    && row.employeeId == entry.employeeId && row.employeeId in env.staff
    && row.workDate * DAY <= entry.workDate < (row.workDate + 1) * DAY
    && (row.workDate <= env.today || env.rules.allowFutureEntry)
    && row.clockIn == entry.clockIn && row.clockOut == entry.clockOut && row.source == Manual
    && var shift := env.staff[row.employeeId].shift;
    && (if row.clockIn.Some? then LateBy(shift, row) else row.lateMinutes == 0)
    && (if row.clockIn.Some? && row.clockOut.Some? then DerivedFrom(shift, env.rules, row) else NoDerivedMinutes(row))
    && StatusRecorded(env.rules, entry, row)
  }

  predicate StatusRecorded(rules: AttendanceRules, entry: ManualEntry, row: Row) {
    if entry.status != Unset then row.status == entry.status
    else if row.clockIn.Some? && row.clockOut.Some? then Graded(rules, row)
    else row.status == Absent
  }

  /** What a row says of the call that wrote it. */
  predicate Tells(rows: seq<Row>, call: Call, row: Row) {
    match call
    case ClockIn(env, e, at) => OpenedBy(env, e, at, row)
    case ClockOut(env, e, at) => ClosedBy(rows, env, e, at, row)
    case Record(env, entry) => RecordedBy(env, entry, row)
    case MarkLeave(e, leave, _, _) =>
      && row.employeeId == e && leave.from <= row.workDate <= leave.to
      && row.clockIn == row.clockOut == None && row.status == OnLeave && row.source == System
      && row.lateMinutes == 0 && NoDerivedMinutes(row)
    case Delete(_) => false
  }

  lemma WorkedTimeIsDerived(row: Row, shift: Option<Shift>, rules: AttendanceRules)
    requires row.clockIn.Some? && row.clockOut.Some? && row.clockIn.value <= row.clockOut.value
    ensures DerivedFrom(shift, rules, WithWorkedTime(row, shift, rules))
    ensures Graded(rules, WithWorkedTime(row, shift, rules))
  {
  }

  lemma ClosedRowTells(rows: seq<Row>, env: Environment, e: EmployeeId, at: Instant, row: Row)
    requires ClockOutRow(env, rows, e, at) == Success(row)
    ensures ClosedBy(rows, env, e, at, row)
  {
    var open := OpenDay(rows, e, at).value;
    WorkedTimeIsDerived(open.(clockOut := Some(at)), env.staff[e].shift, env.rules);
    assert ClosedVersionOf(open, row);
  }

  lemma RecordedRowIs(env: Environment, entry: ManualEntry, row: Row)
    requires RecordRow(env, entry) == Success(row.(id := 0))
    ensures entry.employeeId in env.staff
    ensures var timed := WithWorkedTime(PlainRow(env.staff[entry.employeeId].shift, entry),
                                        env.staff[entry.employeeId].shift, env.rules);
            && row.(id := 0, status := timed.status) == timed
            && row.status == (if entry.status != Unset then entry.status
                              else if timed.status == Unset then Absent else timed.status)
  {
  }

  lemma RecordedRowTells(env: Environment, entry: ManualEntry, row: Row)
    requires RecordRow(env, entry) == Success(row.(id := 0))
    ensures RecordedBy(env, entry, row)
  {
    RecordedRowIs(env, entry, row);
    var shift := env.staff[entry.employeeId].shift;
    var plain := PlainRow(shift, entry);
    if entry.clockIn.Some? && entry.clockOut.Some? {
      WorkedTimeIsDerived(plain, shift, env.rules);
    }
  }

  lemma WriterTells(rows: seq<Row>, call: Call, row: Row)
    requires WrittenBy(rows, call, row)
    ensures Tells(rows, call, row)
  {
    match call
    case ClockIn(_, _, _) =>
    case ClockOut(env, e, at) => ClosedRowTells(rows, env, e, at, row);
    case Record(env, entry) => RecordedRowTells(env, entry, row);
    case MarkLeave(_, _, _, _) =>
  }

  predicate NoDerivedMinutes(row: Row) {
    row.workedMinutes == row.earlyLeaveMinutes == row.overtimeMinutes == 0
  }

  lemma DerivedMinutesFit(shift: Option<Shift>, rules: AttendanceRules, row: Row)
    requires row.clockIn.Some? && row.clockOut.Some? && DerivedFrom(shift, rules, row)
    ensures 0 <= row.workedMinutes <= WholeMinutes(row.clockOut.value - row.clockIn.value)
    ensures !(row.earlyLeaveMinutes > 0 && row.overtimeMinutes > 0)
    ensures row.workedMinutes + row.earlyLeaveMinutes >= Scheduled(shift, row.workDate)
  {
  }

  /** Over all punches, manual records, leave markings and deletions, and however rosters and
      rules change in between: at most one row per employee and date, and each row says what some
      call w wrote, under the shift and rules that call had, and none has changed since. If it has
      both punches: in <= out, worked <= elapsed, never both early leave and overtime, and worked
      plus early leave covers the schedule. */
  lemma RegisterIsSound(calls: seq<Call>, i: nat, k: nat) returns (w: nat)
    requires i < |Run(EMPTY_REGISTER, calls).rows| && k < |Run(EMPTY_REGISTER, calls).rows|
    ensures var rows := Run(EMPTY_REGISTER, calls).rows;
            var row := rows[i];
            && (i != k ==> !(row.employeeId == rows[k].employeeId && row.workDate == rows[k].workDate))
            && w < |calls| && Tells(Run(EMPTY_REGISTER, calls[..w]).rows, calls[w], row)
            && (forall m :: w < m <= |calls| ==> row in Run(EMPTY_REGISTER, calls[..m]).rows)
            && (row.clockIn.Some? && row.clockOut.Some? ==>
                  && (calls[w].ClockOut? || calls[w].Record?) && row.employeeId in calls[w].env.staff
                  && 0 <= row.workedMinutes <= WholeMinutes(row.clockOut.value - row.clockIn.value)
                  && !(row.earlyLeaveMinutes > 0 && row.overtimeMinutes > 0)
                  && var shift := calls[w].env.staff[row.employeeId].shift;
                     row.workedMinutes + row.earlyLeaveMinutes >= Scheduled(shift, row.workDate))
  {
    RunKeepsKeys(EMPTY_REGISTER, calls);
    var row := Run(EMPTY_REGISTER, calls).rows[i];
    w := EveryRowHasWriter(calls, row);
    WriterTells(Run(EMPTY_REGISTER, calls[..w]).rows, calls[w], row);
    if row.clockIn.Some? && row.clockOut.Some? {
      DerivedMinutesFit(calls[w].env.staff[row.employeeId].shift, calls[w].env.rules, row);
    }
  }

  /** A row without both punches adds nothing to the month's overtime. */
  lemma {:induction false} OpenRowsHaveNoMinutes(calls: seq<Call>)
    ensures forall row | row in Run(EMPTY_REGISTER, calls).rows ::
              row.clockIn.None? || row.clockOut.None? ==> NoDerivedMinutes(row)
  {
    if calls != [] {
      var n := |calls| - 1;
      var before := Run(EMPTY_REGISTER, calls[..n]);
      OpenRowsHaveNoMinutes(calls[..n]);
      RunKeepsKeys(EMPTY_REGISTER, calls[..n]);
      forall row | row in Run(EMPTY_REGISTER, calls).rows
        ensures row.clockIn.None? || row.clockOut.None? ==> NoDerivedMinutes(row)
      {
        CallWrites(before, calls[n], row);
        if row !in before.rows {
          WriterTells(before.rows, calls[n], row);
        }
      }
    }
  }

  // ---- leave on the register ------------------------------------------------------------------------------

  lemma StillFound(rows: seq<Row>, more: seq<Row>, employeeId: EmployeeId, day: Day)
    requires rows <= more
    ensures FindDay(rows, employeeId, day).Some? ==> FindDay(more, employeeId, day).Some?
  {
    var found := FindDay(rows, employeeId, day);
    assert found.Some? ==> found.value in more;
  }

  /** The row is one a leave of this employee put on a day of the range that had none. */
  predicate FillsGap(rows: seq<Row>, row: Row, employeeId: EmployeeId, leave: DateRange) {
    && row.employeeId == employeeId && row.status == OnLeave && row.source == System
    && leave.Has(row.workDate) && FindDay(rows, employeeId, row.workDate).None?
  }

  predicate OnlyFillsGaps(rows: seq<Row>, after: seq<Row>, employeeId: EmployeeId, leave: DateRange) {
    rows <= after && forall i :: |rows| <= i < |after| ==> FillsGap(rows, after[i], employeeId, leave)
  }

  lemma FirstDayFillsGap(r: Register, employeeId: EmployeeId, day: Day, insertFails: set<Day>)
    ensures OnlyFillsGaps(r.rows, MarkDay(r, employeeId, day, insertFails).rows, employeeId, DateRange(day, day))
    ensures day !in insertFails ==> FindDay(MarkDay(r, employeeId, day, insertFails).rows, employeeId, day).Some?
  {
    var after := MarkDay(r, employeeId, day, insertFails).rows;
    if FindDay(r.rows, employeeId, day).None? && day !in insertFails {
      assert after[|r.rows|] in after && IsDay(after[|r.rows|], employeeId, day);
    }
  }

  lemma GapsFilledInTurn(rows: seq<Row>, first: seq<Row>, after: seq<Row>, employeeId: EmployeeId, leave: DateRange)
    requires OnlyFillsGaps(rows, first, employeeId, DateRange(leave.from, leave.from))
    requires OnlyFillsGaps(first, after, employeeId, DateRange(leave.from + 1, leave.to))
    requires leave.from <= leave.to
    ensures OnlyFillsGaps(rows, after, employeeId, leave)
  {
    forall i | |rows| <= i < |after|
      ensures FillsGap(rows, after[i], employeeId, leave)
    {
      if i < |first| {
        assert FillsGap(rows, first[i], employeeId, DateRange(leave.from, leave.from));
      } else {
        assert FillsGap(first, after[i], employeeId, DateRange(leave.from + 1, leave.to));
        StillFound(rows, first, employeeId, after[i].workDate);
      }
    }
  }

  /** Marking a leave leaves every row there is alone, adds on-leave rows only on days of the
      leave that had none, and leaves no looked-at day without a row unless its insert failed. */
  lemma {:induction false} MarkDaysFillGaps(r: Register, employeeId: EmployeeId, start: Day, days: nat,
                                            insertFails: set<Day>, day: Day)
    ensures var after := MarkDays(r, employeeId, start, days, insertFails);
            && OnlyFillsGaps(r.rows, after.rows, employeeId, DateRange(start, start + days - 1))
            && (start <= day < start + days && day !in insertFails ==> FindDay(after.rows, employeeId, day).Some?)
    decreases days
  {
    if days > 0 {
      var first := MarkDay(r, employeeId, start, insertFails);
      FirstDayFillsGap(r, employeeId, start, insertFails);
      MarkDaysFillGaps(first, employeeId, start + 1, days - 1, insertFails, day);
      var after := MarkDays(first, employeeId, start + 1, days - 1, insertFails);
      GapsFilledInTurn(r.rows, first.rows, after.rows, employeeId, DateRange(start, start + days - 1));
      if start !in insertFails {
        StillFound(first.rows, after.rows, employeeId, start);
      }
    }
  }

  /** Deleting a row frees its date for the employee and no other date of anyone. */
  lemma DeleteFreesOneDay(r: Register, row: Row, employeeId: EmployeeId, day: Day)
    requires Keyed(r) && row in r.rows
    ensures FindDay(Without(r, row.id).rows, employeeId, day)
         == if IsDay(row, employeeId, day) then None else FindDay(r.rows, employeeId, day)
  {
    var keep, after := HasOtherId(row.id), Without(r, row.id);
    FilterKeepsOnly(keep, r.rows);
    FilterKeepsAll(keep, r.rows);
    FilterKeepsKeyed(r.rows, r.nextId, keep);
    FoundRowIsUnique(r, row, row.id);
    var found, left := FindDay(r.rows, employeeId, day), FindDay(after.rows, employeeId, day);
    if left.Some? {
      FindDayFinds(r, left.value);
    }
    if found.Some? && found.value.id != row.id {
      FindDayFinds(after, found.value);
    }
  }

  // ---- what a call leaves alone ------------------------------------------------------------------------

  /** The row of the date is there, by its key. */
  predicate HasDay(rows: seq<Row>, employeeId: EmployeeId, day: Day) {
    exists i :: 0 <= i < |rows| && rows[i].employeeId == employeeId && rows[i].workDate == day
  }

  lemma FindDayIff(rows: seq<Row>, employeeId: EmployeeId, day: Day)
    ensures FindDay(rows, employeeId, day).Some? <==> HasDay(rows, employeeId, day)
  {
    var found := FindDay(rows, employeeId, day);
    if found.Some? {
      var i :| 0 <= i < |rows| && rows[i] == found.value;
    } else if i :| 0 <= i < |rows| && rows[i].employeeId == employeeId && rows[i].workDate == day {
      assert rows[i] in rows && IsDay(rows[i], employeeId, day);
    }
  }

  lemma {:induction false} MarkDaysOnlyAdds(r: Register, employeeId: EmployeeId, start: Day, days: nat,
                                            insertFails: set<Day>)
    ensures r.rows <= MarkDays(r, employeeId, start, days, insertFails).rows
    decreases days
  {
    if days > 0 {
      MarkDaysOnlyAdds(MarkDay(r, employeeId, start, insertFails), employeeId, start + 1, days - 1, insertFails);
    }
  }

  /** A row that is not of the employee and date a call is about is still there after it, unless
      the call deletes it; and a row that is keeps its place, its id and its key. */
  lemma CallKeepsOtherRows(r: Register, call: Call, k: nat)
    requires Keyed(r) && k < |r.rows| && !call.Delete?
    ensures var row, after := r.rows[k], AfterCall(r, call).rows;
            && k < |after|
            && after[k].id == row.id && after[k].employeeId == row.employeeId && after[k].workDate == row.workDate
            && match call
               case ClockIn(_, e, at) => row.employeeId != e || row.workDate != at / DAY ==> after[k] == row
               case ClockOut(_, e, at) =>
                 row.employeeId != e || (row.workDate != at / DAY && row.workDate != at / DAY - 1) ==> after[k] == row
               case Record(_, entry) =>
                 row.employeeId != entry.employeeId || row.workDate != entry.workDate / DAY ==> after[k] == row
               case MarkLeave(_, _, _, _) => after[k] == row
  {
    match call
    case ClockIn(env, e, at) =>
      if ClockInRow(env, r.rows, e, at).Success? {
        WriteKeepsOtherRows(r, ClockInRow(env, r.rows, e, at).value, k);
      }
    case ClockOut(env, e, at) => ClockOutKeepsOtherRows(r, env, e, at, k);
    case Record(env, entry) =>
      if RecordRow(env, entry).Success? {
        WriteKeepsOtherRows(r, RecordRow(env, entry).value, k);
      }
    case MarkLeave(e, leave, insertFails, lookupFailsOn) =>
      MarkDaysOnlyAdds(r, e, leave.from, DaysLookedAt(leave, lookupFailsOn), insertFails);
  }

  lemma WriteKeepsOtherRows(r: Register, row: Row, k: nat)
    requires Keyed(r) && k < |r.rows|
    ensures var after := Write(r, row).rows;
            && k < |after|
            && after[k].id == r.rows[k].id && IsDay(after[k], r.rows[k].employeeId, r.rows[k].workDate)
            && (!IsDay(r.rows[k], row.employeeId, row.workDate) ==> after[k] == r.rows[k])
  {
    var existing := FindDay(r.rows, row.employeeId, row.workDate);
    if existing.Some? {
      FoundRowIsUnique(r, existing.value, existing.value.id);
    }
  }

  lemma ClockOutKeepsOtherRows(r: Register, env: Environment, e: EmployeeId, at: Instant, k: nat)
    requires Keyed(r) && k < |r.rows|
    ensures var row, after := r.rows[k], AfterCall(r, ClockOut(env, e, at)).rows;
            && k < |after| && after[k].id == row.id && IsDay(after[k], row.employeeId, row.workDate)
            && (row.employeeId != e || (row.workDate != at / DAY && row.workDate != at / DAY - 1) ==> after[k] == row)
  {
    if ClockOutRow(env, r.rows, e, at).Success? {
      var open := OpenDay(r.rows, e, at).value;
      FoundRowIsUnique(r, open, open.id);
    }
  }

  /** A clock-in is accepted exactly when the employee is on the payroll and no row of that day has
      a punch. */
  lemma ClockInAcceptedIff(env: Environment, r: Register, e: EmployeeId, at: Instant)
    requires Keyed(r)
    ensures ClockInRow(env, r.rows, e, at).Success? <==>
            && e in env.staff && env.staff[e].active
            && forall i :: 0 <= i < |r.rows| && r.rows[i].employeeId == e && r.rows[i].workDate == at / DAY ==>
                 r.rows[i].clockIn.None?
  {
    FindDayIff(r.rows, e, DateOnly(at));
    forall i | 0 <= i < |r.rows| && r.rows[i].employeeId == e && r.rows[i].workDate == at / DAY
      ensures FindDay(r.rows, e, DateOnly(at)) == Some(r.rows[i])
    {
      FindDayFinds(r, r.rows[i]);
    }
  }

  /** A manual record is accepted exactly when the employee exists, the day is not in the future
      unless that is allowed, and the punches, if both are given, are in order. */
  lemma RecordAcceptedIff(env: Environment, entry: ManualEntry)
    ensures RecordRow(env, entry).Success? <==>
            && entry.employeeId in env.staff
            && (entry.workDate / DAY <= env.today || env.rules.allowFutureEntry)
            && (entry.clockIn.None? || entry.clockOut.None? || entry.clockIn.value <= entry.clockOut.value)
  {
  }

  predicate HasPunch(rows: seq<Row>, e: EmployeeId, day: Day) {
    exists i :: 0 <= i < |rows| && rows[i].employeeId == e && rows[i].workDate == day && rows[i].clockIn.Some?
  }

  /** Why a punch or a record is refused. */
  predicate Refuses(error: Error, rows: seq<Row>, call: Call) {
    match error
    case EmployeeNotFound =>
      || (call.ClockIn? && call.employeeId !in call.env.staff)
      || (call.ClockOut? && call.employeeId !in call.env.staff)
      || (call.Record? && call.entry.employeeId !in call.env.staff)
    case NotActive =>
      call.ClockIn? && call.employeeId in call.env.staff && !call.env.staff[call.employeeId].active
    case AlreadyClockedIn => call.ClockIn? && HasPunch(rows, call.employeeId, call.at / DAY)
    case NotClockedIn => call.ClockOut? && !HasPunch(rows, call.employeeId, call.at / DAY)
    case AlreadyClockedOut =>
      && call.ClockOut?
      && exists i :: 0 <= i < |rows| && rows[i].employeeId == call.employeeId && rows[i].workDate == call.at / DAY
                     && rows[i].clockOut.Some?
    case OutBeforeIn =>
      || (call.ClockOut? && exists i :: 0 <= i < |rows| && rows[i].employeeId == call.employeeId
                                         && rows[i].clockIn.Some? && call.at < rows[i].clockIn.value)
      || (call.Record? && call.entry.clockIn.Some? && call.entry.clockOut.Some?
          && call.entry.clockOut.value < call.entry.clockIn.value)
    case FutureDate => call.Record? && call.entry.workDate / DAY > call.env.today && !call.env.rules.allowFutureEntry
  }

  /** The error a call answers with, if it is refused. */
  function Refusal(rows: seq<Row>, call: Call): Option<Error> {
    match call
    case ClockIn(env, e, at) =>
      (match ClockInRow(env, rows, e, at)
       case Failure(error) => Some(error)
       case Success(_) => None)
    case ClockOut(env, e, at) =>
      (match ClockOutRow(env, rows, e, at)
       case Failure(error) => Some(error)
       case Success(_) => None)
    case Record(env, entry) =>
      (match RecordRow(env, entry)
       case Failure(error) => Some(error)
       case Success(_) => None)
    case MarkLeave(_, _, _, _) => None
    case Delete(_) => None
  }

  lemma FoundPunch(r: Register, e: EmployeeId, day: Day)
    requires Keyed(r)
    ensures var found := FindDay(r.rows, e, day);
            HasPunch(r.rows, e, day) <==> found.Some? && found.value.clockIn.Some?
  {
    var found := FindDay(r.rows, e, day);
    if found.Some? {
      var i :| 0 <= i < |r.rows| && r.rows[i] == found.value;
    }
    if i :| 0 <= i < |r.rows| && r.rows[i].employeeId == e && r.rows[i].workDate == day && r.rows[i].clockIn.Some? {
      FindDayFinds(r, r.rows[i]);
    }
  }

  lemma ClockOutRefusalIsTrue(r: Register, call: Call)
    requires Keyed(r) && call.ClockOut? && Refusal(r.rows, call).Some?
    ensures Refuses(Refusal(r.rows, call).value, r.rows, call)
  {
    var e, at := call.employeeId, call.at;
    FoundPunch(r, e, DateOnly(at));
    var open := OpenDay(r.rows, e, at);
    if open.Success? {
      var i :| 0 <= i < |r.rows| && r.rows[i] == open.value;
      assert r.rows[i].employeeId == e;
    }
  }

  /** Each refusal names something that is wrong with the call. */
  lemma RefusalIsTrue(r: Register, call: Call)
    requires Keyed(r) && Refusal(r.rows, call).Some?
    ensures Refuses(Refusal(r.rows, call).value, r.rows, call)
  {
    match call
    case ClockIn(_, e, at) => FoundPunch(r, e, DateOnly(at));
    case ClockOut(_, _, _) => ClockOutRefusalIsTrue(r, call);
    case Record(_, _) =>
    case MarkLeave(_, _, _, _) =>
    case Delete(_) =>
  }

  /** The day is one an approved leave gets to: in its range, and before the day, if any, whose
      lookup fails. */
  predicate IsReached(leave: DateRange, lookupFailsOn: Option<Day>, day: Day) {
    && leave.from <= day <= leave.to
    && (lookupFailsOn.Some? && leave.from <= lookupFailsOn.value <= leave.to ==> day < lookupFailsOn.value)
  }

  /** Marking a leave gives a row to exactly those days that had one, and those it reaches and can
      insert - from the first day of the leave to its last, both included. */
  lemma LeaveMarksItsDays(r: Register, employeeId: EmployeeId, leave: DateRange, insertFails: set<Day>,
                          lookupFailsOn: Option<Day>, day: Day)
    ensures var after := AfterCall(r, MarkLeave(employeeId, leave, insertFails, lookupFailsOn)).rows;
            HasDay(after, employeeId, day) <==>
            HasDay(r.rows, employeeId, day) || (IsReached(leave, lookupFailsOn, day) && day !in insertFails)
  {
    var n := DaysLookedAt(leave, lookupFailsOn);
    var after := MarkDays(r, employeeId, leave.from, n, insertFails).rows;
    assert leave.from <= day < leave.from + n <==> IsReached(leave, lookupFailsOn, day);
    MarkDaysFillGaps(r, employeeId, leave.from, n, insertFails, day);
    FindDayIff(r.rows, employeeId, day);
    FindDayIff(after, employeeId, day);
    MarkedDayIsReached(r, employeeId, leave.from, n, insertFails, day);
  }

  lemma {:induction false} MarkedDayIsReached(r: Register, employeeId: EmployeeId, start: Day, days: nat,
                                              insertFails: set<Day>, day: Day)
    ensures HasDay(MarkDays(r, employeeId, start, days, insertFails).rows, employeeId, day) ==>
              HasDay(r.rows, employeeId, day) || (start <= day < start + days && day !in insertFails)
    decreases days
  {
    if days > 0 {
      var first := MarkDay(r, employeeId, start, insertFails);
      MarkedDayIsReached(first, employeeId, start + 1, days - 1, insertFails, day);
    }
  }

  // ---- night shifts ---------------------------------------------------------------------------------------

  lemma FindDayFinds(r: Register, row: Row)
    requires Keyed(r) && row in r.rows
    ensures FindDay(r.rows, row.employeeId, row.workDate) == Some(row)
  {
    var found := FindDay(r.rows, row.employeeId, row.workDate);
    var i :| 0 <= i < |r.rows| && r.rows[i] == row;
    if found.Some? {
      var k :| 0 <= k < |r.rows| && r.rows[k] == found.value;
    }
  }

  /** A successful clock-in leaves its punch on the register under that date, and every further
      clock-in of the employee on that date is refused without changing anything. */
  lemma SecondClockInRefused(env: Environment, later: Environment, r: Register, e: EmployeeId, at: Instant,
                             again: Instant)
    requires Keyed(r) && ClockInRow(env, r.rows, e, at).Success?
    requires e in later.staff && later.staff[e].active && DateOnly(again) == DateOnly(at)
    ensures var after := AfterCall(r, ClockIn(env, e, at));
            && FindDay(after.rows, e, DateOnly(at)).Some?
            && FindDay(after.rows, e, DateOnly(at)).value.clockIn == Some(at)
            && ClockInRow(later, after.rows, e, again) == Failure(AlreadyClockedIn)
  {
    WrittenIsFound(r, ClockInRow(env, r.rows, e, at).value);
  }

  lemma WrittenIsFound(r: Register, row: Row)
    requires Keyed(r)
    ensures FindDay(Write(r, row).rows, row.employeeId, row.workDate) == Some(row.(id := WrittenId(r, row)))
  {
    var existing := FindDay(r.rows, row.employeeId, row.workDate);
    var written, after := row.(id := WrittenId(r, row)), Write(r, row);
    if existing.Some? {
      FoundRowIsUnique(r, existing.value, existing.value.id);
      var k :| 0 <= k < |r.rows| && r.rows[k] == existing.value;
      assert after.rows[k] == written;
      WriteKeepsKeys(r, row);
      FindDayFinds(after, written);
    } else {
      assert after.rows[|r.rows|] == written;
      WriteKeepsKeys(r, row);
      FindDayFinds(after, written);
    }
  }

  /** The call closes this row: it stores the punch on it, with the derived columns. */
  predicate Closes(env: Environment, r: Register, row: Row, at: Instant) {
    && row.employeeId in env.staff
    && ClockOutRow(env, r.rows, row.employeeId, at)
       == Success(WithWorkedTime(row.(clockOut := Some(at)), env.staff[row.employeeId].shift, env.rules))
  }

  /** A clock-out closes the row its clock-in opened exactly when it comes on that date, or on
      the next date while the next date holds no open row of its own. */
  lemma {:induction false} ClockOutClosesOpenedDayIff(env: Environment, r: Register, row: Row, at: Instant)
    requires Keyed(r) && row in r.rows && row.employeeId in env.staff
    requires row.clockIn.Some? && row.clockOut.None? && row.clockIn.value <= at
    requires DateOnly(row.clockIn.value) == row.workDate
    ensures var next := FindDay(r.rows, row.employeeId, row.workDate + 1);
            Closes(env, r, row, at) <==>
            || DateOnly(at) == row.workDate
            || (DateOnly(at) == row.workDate + 1 && (next.None? || next.value.clockOut.Some?))
  {
    FindDayFinds(r, row);
    var open := OpenDay(r.rows, row.employeeId, at);
    if DateOnly(at) == row.workDate || DateOnly(at) == row.workDate + 1 {
    } else if open.Success? {
      assert open.value.workDate != row.workDate;
    }
  }
}
