/** What a payroll run reads: the month's attendance summary (SummarizeByEmployee in
    backend/internal/repository/hrm_attendance_repository.go) and the approved leave, per
    employee - and when a day of the month is deducted twice. */
module PayrollInputs {
  import opened Calendar
  import opened Leave
  import opened LeaveSafety
  import opened LeaveViews
  import opened Shifts
  import opened Wrappers
  import Payroll

  // ---- the summary ------------------------------------------------------------------------------

  datatype Summary = Summary(presentDays: real, absentDays: real, overtimeMinutes: int)

  predicate InWindow(row: Attendance.Row, employeeId: EmployeeId, window: DateRange) {
    row.employeeId == employeeId && window.Has(row.workDate)
  }

  /** Present and late days count one, half days a half. */
  function PresentWeight(status: Attendance.Status): real {
    match status
    case Present => 1.0
    case Late => 1.0
    case HalfDay => 0.5
    case _ => 0.0
  }

  function SummarizeByEmployee(rows: seq<Attendance.Row>, employeeId: EmployeeId, window: DateRange): Summary {
    if rows == [] then Summary(0.0, 0.0, 0)
    else
      var before, row := SummarizeByEmployee(rows[..|rows| - 1], employeeId, window), rows[|rows| - 1];
      if !InWindow(row, employeeId, window) then before
      else
        Summary(before.presentDays + PresentWeight(row.status),
                before.absentDays + (if row.status == Attendance.Absent then 1.0 else 0.0),
                before.overtimeMinutes + row.overtimeMinutes)
  }

  /** What Generate hands to computePayslip for one employee. */
  function PayableFor(rows: seq<Attendance.Row>, requests: seq<LeaveRequest>, types: seq<LeaveType>,
                      employeeId: EmployeeId, basicSalaryCents: int, window: DateRange): Payroll.Payable {
    var attendance := SummarizeByEmployee(rows, employeeId, window);
    var leave := SumApprovedByPayType(requests, types, employeeId, window);
    Payroll.Payable(employeeId, basicSalaryCents, attendance.presentDays, attendance.absentDays,
                    attendance.overtimeMinutes, leave.paidDays, leave.unpaidDays)
  }

  /** The employee's rows of the window with this status. */
  function RowsWith(rows: seq<Attendance.Row>, employeeId: EmployeeId, window: DateRange,
                    status: Attendance.Status): set<nat> {
    set i | 0 <= i < |rows| && rows[i].employeeId == employeeId && window.from <= rows[i].workDate <= window.to
            && rows[i].status == status
  }

  function OvertimeIn(rows: seq<Attendance.Row>, employeeId: EmployeeId, window: DateRange): int {
    if rows == [] then 0
    else
      OvertimeIn(rows[1..], employeeId, window)
      + if rows[0].employeeId == employeeId && window.from <= rows[0].workDate <= window.to
        then rows[0].overtimeMinutes else 0
  }

  lemma RowsWithLast(rows: seq<Attendance.Row>, row: Attendance.Row, employeeId: EmployeeId, window: DateRange,
                     status: Attendance.Status)
    ensures |RowsWith(rows + [row], employeeId, window, status)|
         == |RowsWith(rows, employeeId, window, status)|
            + if InWindow(row, employeeId, window) && row.status == status then 1 else 0
  {
    var before, after := RowsWith(rows, employeeId, window, status), RowsWith(rows + [row], employeeId, window, status);
    if InWindow(row, employeeId, window) && row.status == status {
      assert after == before + {|rows|};
    } else {
      assert after == before;
    }
  }

  lemma {:induction false} OvertimeInLast(rows: seq<Attendance.Row>, row: Attendance.Row, employeeId: EmployeeId,
                                          window: DateRange)
    ensures OvertimeIn(rows + [row], employeeId, window)
         == OvertimeIn(rows, employeeId, window) + if InWindow(row, employeeId, window) then row.overtimeMinutes else 0
  {
    if rows == [] {
      assert rows + [row] == [row] && [row][1..] == [];
    } else {
      OvertimeInLast(rows[1..], row, employeeId, window);
      assert (rows + [row])[1..] == rows[1..] + [row];
    }
  }

  /** What payroll reads of the register: the rows of the employee and month that are present or
      late count one day, half days a half, absences one absent day, and overtime adds up; of the
      requests it reads the paid and the unpaid days apart. */
  lemma {:induction false} PayableCounts(rows: seq<Attendance.Row>, requests: seq<LeaveRequest>, types: seq<LeaveType>,
                                         employeeId: EmployeeId, basicSalaryCents: int, window: DateRange)
    ensures var e := PayableFor(rows, requests, types, employeeId, basicSalaryCents, window);
            && e.employeeId == employeeId && e.basicSalaryCents == basicSalaryCents
            && e.presentDays == |RowsWith(rows, employeeId, window, Attendance.Present)| as real
                                + |RowsWith(rows, employeeId, window, Attendance.Late)| as real
                                + |RowsWith(rows, employeeId, window, Attendance.HalfDay)| as real / 2.0
            && e.absentDays == |RowsWith(rows, employeeId, window, Attendance.Absent)| as real
            && e.overtimeMinutes == OvertimeIn(rows, employeeId, window)
            && e.paidLeaveDays == ApprovedDays(requests, employeeId, TypesWith(types, true), window)
            && e.unpaidLeaveDays == ApprovedDays(requests, employeeId, TypesWith(types, false), window)
  {
    if rows != [] {
      var front, row := rows[..|rows| - 1], rows[|rows| - 1];
      PayableCounts(front, requests, types, employeeId, basicSalaryCents, window);
      assert rows == front + [row];
      RowsWithLast(front, row, employeeId, window, Attendance.Present);
      RowsWithLast(front, row, employeeId, window, Attendance.Late);
      RowsWithLast(front, row, employeeId, window, Attendance.HalfDay);
      RowsWithLast(front, row, employeeId, window, Attendance.Absent);
      OvertimeInLast(front, row, employeeId, window);
    }
  }

  /** Paid types are those marked so, deleted and inactive ones included. */
  lemma PaidTypesAre(types: seq<LeaveType>, t: LeaveTypeId, paid: bool)
    ensures t in TypesWith(types, paid) <==> t < |types| && types[t].isPaid == paid
  {
  }

  // ---- deductions day by day -----------------------------------------------------------------------

  /** The roster a request was counted against when it was filed. */
  datatype Roster = Roster(shift: Option<Shift>, excludeWeeklyOff: bool)

  predicate FiledUnder(row: LeaveRequest, roster: Roster) {
    row.days == LeaveDays(row.range, row.halfDay, roster.shift, roster.excludeWeeklyOff)
  }

  predicate AllFiledUnder(requests: seq<LeaveRequest>, rosters: seq<Roster>) {
    |rosters| == |requests| && forall i :: 0 <= i < |requests| ==> FiledUnder(requests[i], rosters[i])
  }

  /** How much of a day a request takes. */
  function Portion(row: LeaveRequest, roster: Roster, day: Day): real {
    if !row.range.Has(day) then 0.0
    else if row.halfDay && row.range.from == row.range.to then 0.5
    else if Counted(roster.shift, roster.excludeWeeklyOff, day) then 1.0
    else 0.0
  }

  predicate IsUnpaid(row: LeaveRequest, types: seq<LeaveType>, employeeId: EmployeeId, window: DateRange) {
    IsApprovedIn(row, employeeId, TypesWith(types, false), window)
  }

  /** Unpaid leave the employee is charged for on a day. */
  function LeaveOn(requests: seq<LeaveRequest>, rosters: seq<Roster>, types: seq<LeaveType>,
                   employeeId: EmployeeId, window: DateRange, day: Day): real
    requires |rosters| == |requests|
  {
    if requests == [] then 0.0
    else
      var n := |requests| - 1;
      LeaveOn(requests[..n], rosters[..n], types, employeeId, window, day)
      + if IsUnpaid(requests[n], types, employeeId, window) then Portion(requests[n], rosters[n], day) else 0.0
  }

  predicate IsAbsence(row: Attendance.Row, employeeId: EmployeeId, window: DateRange, day: Day) {
    InWindow(row, employeeId, window) && row.status == Attendance.Absent && row.workDate == day
  }

  /** Absences the employee is charged for on a day. */
  function AbsencesOn(rows: seq<Attendance.Row>, employeeId: EmployeeId, window: DateRange, day: Day): real {
    if rows == [] then 0.0
    else
      AbsencesOn(rows[..|rows| - 1], employeeId, window, day)
      + if IsAbsence(rows[|rows| - 1], employeeId, window, day) then 1.0 else 0.0
  }

  /** Everything payroll deducts for one day. */
  function DeductedOn(rules: Payroll.PayrollRules, rows: seq<Attendance.Row>, requests: seq<LeaveRequest>,
                      rosters: seq<Roster>, types: seq<LeaveType>, employeeId: EmployeeId, window: DateRange,
                      day: Day): real
    requires |rosters| == |requests|
  {
    (if rules.deductAbsentDays then AbsencesOn(rows, employeeId, window, day) else 0.0)
    + (if rules.deductUnpaidLeave then LeaveOn(requests, rosters, types, employeeId, window, day) else 0.0)
  }

  // ---- sums over days ---------------------------------------------------------------------------------

  function DaySum(amount: Day -> real, from: Day, n: nat): real {
    if n == 0 then 0.0 else DaySum(amount, from, n - 1) + amount(from + n - 1)
  }

  lemma {:induction false} DaySumAdds(sum: Day -> real, a: Day -> real, b: Day -> real, from: Day, n: nat)
    requires forall day :: sum(day) == a(day) + b(day)
    ensures DaySum(sum, from, n) == DaySum(a, from, n) + DaySum(b, from, n)
  {
    if n > 0 {
      DaySumAdds(sum, a, b, from, n - 1);
    }
  }

  /** An amount on a single day. */
  lemma {:induction false} DaySumOfOne(amount: Day -> real, day: Day, from: Day, n: nat)
    requires forall d :: d != day ==> amount(d) == 0.0
    ensures DaySum(amount, from, n) == if from <= day < from + n then amount(day) else 0.0
  {
    if n > 0 {
      DaySumOfOne(amount, day, from, n - 1);
    }
  }

  lemma {:induction false} DaySumOfNone(amount: Day -> real, from: Day, n: nat)
    requires forall d :: amount(d) == 0.0
    ensures DaySum(amount, from, n) == 0.0
  {
    if n > 0 {
      DaySumOfNone(amount, from, n - 1);
    }
  }

  function PortionPerDay(row: LeaveRequest, roster: Roster): Day -> real {
    day => Portion(row, roster, day)
  }

  /** The working days of a range up to a day. */
  function CountedUpTo(range: DateRange, roster: Roster, last: Day): nat {
    var upTo := DateRange(range.from, if last < range.to then last else range.to);
    |WorkingDays(upTo, roster.shift, roster.excludeWeeklyOff)|
  }

  lemma {:induction false} FullPortions(row: LeaveRequest, roster: Roster, from: Day, n: nat)
    requires !(row.halfDay && row.range.from == row.range.to) && from <= row.range.from
    ensures DaySum(PortionPerDay(row, roster), from, n) == CountedUpTo(row.range, roster, from + n - 1) as real
  {
    var range := row.range;
    if n == 0 {
      assert WorkingDays(DateRange(range.from, if from - 1 < range.to then from - 1 else range.to),
                         roster.shift, roster.excludeWeeklyOff) == {};
    } else {
      FullPortions(row, roster, from, n - 1);
      var day := from + n - 1;
      if range.Has(day) {
        NextWorkingDay(range.from, day, roster.shift, roster.excludeWeeklyOff);
      } else if day < range.from {
        assert WorkingDays(DateRange(range.from, if day < range.to then day else range.to),
                           roster.shift, roster.excludeWeeklyOff) == {};
        assert WorkingDays(DateRange(range.from, if day - 1 < range.to then day - 1 else range.to),
                           roster.shift, roster.excludeWeeklyOff) == {};
      }
    }
  }

  /** The portions of a request add up to the days stored on it. */
  lemma PortionsAddUp(row: LeaveRequest, roster: Roster, from: Day, n: nat)
    requires FiledUnder(row, roster) && from <= row.range.from <= row.range.to < from + n
    ensures DaySum(PortionPerDay(row, roster), from, n) == row.days
  {
    if row.halfDay && row.range.from == row.range.to {
      DaySumOfOne(PortionPerDay(row, roster), row.range.from, from, n);
    } else {
      FullPortions(row, roster, from, n);
      assert DateRange(row.range.from, row.range.to) == row.range;
    }
  }

  function LeavePerDay(requests: seq<LeaveRequest>, rosters: seq<Roster>, types: seq<LeaveType>,
                       employeeId: EmployeeId, window: DateRange): Day -> real
    requires |rosters| == |requests|
  {
    day => LeaveOn(requests, rosters, types, employeeId, window, day)
  }

  /** Days from .. from + n - 1 hold every day of the unpaid requests of the window. */
  predicate CoversLeave(requests: seq<LeaveRequest>, types: seq<LeaveType>, employeeId: EmployeeId,
                        window: DateRange, from: Day, n: nat) {
    forall i :: 0 <= i < |requests| && IsUnpaid(requests[i], types, employeeId, window) ==>
      from <= requests[i].range.from <= requests[i].range.to < from + n
  }

  lemma {:induction false} LeaveAddsUp(requests: seq<LeaveRequest>, rosters: seq<Roster>, types: seq<LeaveType>,
                                       employeeId: EmployeeId, window: DateRange, from: Day, n: nat)
    requires AllFiledUnder(requests, rosters) && CoversLeave(requests, types, employeeId, window, from, n)
    ensures DaySum(LeavePerDay(requests, rosters, types, employeeId, window), from, n)
         == SumApprovedByPayType(requests, types, employeeId, window).unpaidDays
  {
    var all := LeavePerDay(requests, rosters, types, employeeId, window);
    if requests == [] {
      DaySumOfNone(all, from, n);
    } else {
      var last := |requests| - 1;
      var row, roster := requests[last], rosters[last];
      var rest := LeavePerDay(requests[..last], rosters[..last], types, employeeId, window);
      LeaveAddsUp(requests[..last], rosters[..last], types, employeeId, window, from, n);
      if IsUnpaid(row, types, employeeId, window) {
        DaySumAdds(all, rest, PortionPerDay(row, roster), from, n);
        PortionsAddUp(row, roster, from, n);
      } else {
        var none: Day -> real := day => 0.0;
        DaySumAdds(all, rest, none, from, n);
        DaySumOfNone(none, from, n);
      }
    }
  }

  function AbsencesPerDay(rows: seq<Attendance.Row>, employeeId: EmployeeId, window: DateRange): Day -> real {
    day => AbsencesOn(rows, employeeId, window, day)
  }

  lemma {:induction false} AbsencesAddUp(rows: seq<Attendance.Row>, employeeId: EmployeeId, window: DateRange,
                                         from: Day, n: nat)
    requires from <= window.from && window.to < from + n
    ensures DaySum(AbsencesPerDay(rows, employeeId, window), from, n)
         == SummarizeByEmployee(rows, employeeId, window).absentDays
  {
    var all := AbsencesPerDay(rows, employeeId, window);
    if rows == [] {
      DaySumOfNone(all, from, n);
    } else {
      var row := rows[|rows| - 1];
      var rest := AbsencesPerDay(rows[..|rows| - 1], employeeId, window);
      var one: Day -> real := day => if IsAbsence(row, employeeId, window, day) then 1.0 else 0.0;
      AbsencesAddUp(rows[..|rows| - 1], employeeId, window, from, n);
      DaySumAdds(all, rest, one, from, n);
      DaySumOfOne(one, row.workDate, from, n);
    }
  }

  function DeductedPerDay(rules: Payroll.PayrollRules, rows: seq<Attendance.Row>, requests: seq<LeaveRequest>,
                          rosters: seq<Roster>, types: seq<LeaveType>, employeeId: EmployeeId,
                          window: DateRange): Day -> real
    requires |rosters| == |requests|
  {
    day => DeductedOn(rules, rows, requests, rosters, types, employeeId, window, day)
  }

  /** The unpaid days a payslip is computed from are the deductions of the single days, summed
      over any stretch of days that holds the month and the leave that starts in it. */
  lemma UnpaidDaysAddUp(rules: Payroll.PayrollRules, rows: seq<Attendance.Row>, requests: seq<LeaveRequest>,
                        rosters: seq<Roster>, types: seq<LeaveType>, employeeId: EmployeeId, basicSalaryCents: int,
                        window: DateRange, from: Day, n: nat)
    requires AllFiledUnder(requests, rosters) && CoversLeave(requests, types, employeeId, window, from, n)
    requires from <= window.from && window.to < from + n
    ensures Payroll.UnpaidDays(PayableFor(rows, requests, types, employeeId, basicSalaryCents, window), rules)
         == DaySum(DeductedPerDay(rules, rows, requests, rosters, types, employeeId, window), from, n)
  {
    var all := DeductedPerDay(rules, rows, requests, rosters, types, employeeId, window);
    var absent := AbsencesPerDay(rows, employeeId, window);
    var leave := LeavePerDay(requests, rosters, types, employeeId, window);
    var none: Day -> real := day => 0.0;
    AbsencesAddUp(rows, employeeId, window, from, n);
    LeaveAddsUp(requests, rosters, types, employeeId, window, from, n);
    DaySumOfNone(none, from, n);
    DaySumAdds(all, if rules.deductAbsentDays then absent else none, if rules.deductUnpaidLeave then leave else none,
               from, n);
  }

  /** A stretch of days that holds the window and the unpaid leave that starts in it. */
  lemma {:induction false} CoveringStretch(requests: seq<LeaveRequest>, types: seq<LeaveType>,
                                           employeeId: EmployeeId, window: DateRange) returns (from: Day, n: nat)
    requires Sound(requests)
    ensures CoversLeave(requests, types, employeeId, window, from, n)
    ensures from <= window.from && window.to < from + n
  {
    if requests == [] {
      from := window.from;
      n := if window.to < from then 0 else window.to - from + 1;
    } else {
      var last := |requests| - 1;
      var row := requests[last];
      assert SoundRow(row);
      var from0, n0 := CoveringStretch(requests[..last], types, employeeId, window);
      from := if row.range.from < from0 then row.range.from else from0;
      var end := if row.range.to + 1 > from0 + n0 then row.range.to + 1 else from0 + n0;
      n := end - from;
      forall i | 0 <= i < |requests| && IsUnpaid(requests[i], types, employeeId, window)
        ensures from <= requests[i].range.from <= requests[i].range.to < from + n
      {
        if i < last {
          assert requests[..last][i] == requests[i];
        }
      }
    }
  }

  /** In every reachable state the unpaid days of a payslip come apart into days: each request
      was counted against some roster, and the single days' deductions add up to the total. */
  lemma ReachableUnpaidDaysAddUp(
    rules: Payroll.PayrollRules, rows: seq<Attendance.Row>, calls: seq<Call>, types: seq<LeaveType>,
    employeeId: EmployeeId, basicSalaryCents: int, window: DateRange)
    returns (rosters: seq<Roster>, from: Day, n: nat)
    ensures AllFiledUnder(Run([], calls), rosters) && CoversLeave(Run([], calls), types, employeeId, window, from, n)
    ensures Payroll.UnpaidDays(PayableFor(rows, Run([], calls), types, employeeId, basicSalaryCents, window), rules)
         == DaySum(DeductedPerDay(rules, rows, Run([], calls), rosters, types, employeeId, window), from, n)
  {
    RunKeepsSound([], calls);
    rosters := ReachableRosters(calls);
    from, n := CoveringStretch(Run([], calls), types, employeeId, window);
    UnpaidDaysAddUp(rules, rows, Run([], calls), rosters, types, employeeId, basicSalaryCents, window, from, n);
  }

  // ---- no day twice -------------------------------------------------------------------------------------

  lemma {:induction false} LeaveOnIff(requests: seq<LeaveRequest>, rosters: seq<Roster>, types: seq<LeaveType>,
                                      employeeId: EmployeeId, window: DateRange, day: Day)
    requires |rosters| == |requests|
    ensures LeaveOn(requests, rosters, types, employeeId, window, day) >= 0.0
    ensures LeaveOn(requests, rosters, types, employeeId, window, day) > 0.0 ==>
              && LeaveOn(requests, rosters, types, employeeId, window, day) >= 0.5
              && exists i :: 0 <= i < |requests| && IsUnpaid(requests[i], types, employeeId, window)
                             && requests[i].range.Has(day)
  {
    if requests != [] {
      var n := |requests| - 1;
      LeaveOnIff(requests[..n], rosters[..n], types, employeeId, window, day);
      assert forall i :: 0 <= i < n ==> requests[..n][i] == requests[i];
      assert LeaveOn(requests, rosters, types, employeeId, window, day) > 0.0 ==>
               || LeaveOn(requests[..n], rosters[..n], types, employeeId, window, day) > 0.0
               || (IsUnpaid(requests[n], types, employeeId, window) && requests[n].range.Has(day));
    }
  }

  /** Live requests of an employee are disjoint, so a day is taken by at most one of them. */
  lemma {:induction false} LeaveOnAtMostOnce(requests: seq<LeaveRequest>, rosters: seq<Roster>, types: seq<LeaveType>,
                                             employeeId: EmployeeId, window: DateRange, day: Day)
    requires Sound(requests) && |rosters| == |requests|
    ensures LeaveOn(requests, rosters, types, employeeId, window, day) <= 1.0
  {
    if requests != [] {
      var n := |requests| - 1;
      LeaveOnAtMostOnce(requests[..n], rosters[..n], types, employeeId, window, day);
      LeaveOnIff(requests[..n], rosters[..n], types, employeeId, window, day);
      forall i | 0 <= i < n
        ensures IsUnpaid(requests[..n][i], types, employeeId, window) && requests[..n][i].range.Has(day) ==>
                  !(IsUnpaid(requests[n], types, employeeId, window) && requests[n].range.Has(day))
      {
        assert !Clash(requests[i], requests[n]);
      }
    }
  }

  lemma {:induction false} AbsencesOnIff(rows: seq<Attendance.Row>, employeeId: EmployeeId, window: DateRange, day: Day)
    ensures AbsencesOn(rows, employeeId, window, day) >= 0.0
    ensures AbsencesOn(rows, employeeId, window, day) > 0.0 <==>
              exists i :: 0 <= i < |rows| && IsAbsence(rows[i], employeeId, window, day)
    ensures AbsencesOn(rows, employeeId, window, day) > 0.0 ==> AbsencesOn(rows, employeeId, window, day) >= 1.0
  {
    if rows != [] {
      var n := |rows| - 1;
      AbsencesOnIff(rows[..n], employeeId, window, day);
      assert forall i :: 0 <= i < n ==> rows[..n][i] == rows[i];
    }
  }

  /** The register has one row per date, so a day is absent at most once. */
  lemma {:induction false} AbsentAtMostOnce(rows: seq<Attendance.Row>, nextId: nat, employeeId: EmployeeId,
                                            window: DateRange, day: Day)
    requires Attendance.Keyed(Attendance.Register(rows, nextId))
    ensures AbsencesOn(rows, employeeId, window, day) <= 1.0
  {
    if rows != [] {
      var n := |rows| - 1;
      AbsentAtMostOnce(rows[..n], nextId, employeeId, window, day);
      AbsencesOnIff(rows[..n], employeeId, window, day);
      forall i | 0 <= i < n
        ensures IsAbsence(rows[..n][i], employeeId, window, day) ==> !IsAbsence(rows[n], employeeId, window, day)
      {
        assert !Attendance.IsDay(rows[i], rows[n].employeeId, rows[n].workDate);
      }
    }
  }

  /** Every reachable request was counted against some roster. */
  lemma {:induction false} ReachableRosters(calls: seq<Call>) returns (rosters: seq<Roster>)
    ensures AllFiledUnder(Run([], calls), rosters)
  {
    rosters := [];
    if calls != [] {
      var rows, call := Run([], calls[..|calls| - 1]), calls[|calls| - 1];
      rosters := ReachableRosters(calls[..|calls| - 1]);
      if call.Request? && Filed(call.env, rows, call.application).Success? {
        var shift := call.env.staff[call.application.employeeId].shift;
        rosters := rosters + [Roster(shift, call.env.rules.excludeWeeklyOff)];
      }
    }
  }

  // ---- over all payslips -----------------------------------------------------------------------------

  /** What one payslip of the employee was computed from: its window, the rules and leave types
      then in force, and the register and the requests as they stood. */
  datatype Reading = Reading(
    window: DateRange,
    rules: Payroll.PayrollRules,
    types: seq<LeaveType>,
    rows: seq<Attendance.Row>,
    requests: seq<LeaveRequest>,
    rosters: seq<Roster>)
  {
    function Absences(employeeId: EmployeeId, day: Day): real {
      if rules.deductAbsentDays then AbsencesOn(rows, employeeId, window, day) else 0.0
    }

    function Leave(employeeId: EmployeeId, day: Day): real
      requires |rosters| == |requests|
    {
      if rules.deductUnpaidLeave then LeaveOn(requests, rosters, types, employeeId, window, day) else 0.0
    }

    function Deducted(employeeId: EmployeeId, day: Day): real
      requires |rosters| == |requests|
    {
      DeductedOn(rules, rows, requests, rosters, types, employeeId, window, day)
    }
  }

  /** The reading was taken at some moment of a history of punches and leave calls. */
  ghost predicate TakenFrom(punches: seq<Attendance.Call>, calls: seq<Call>, reading: Reading) {
    && |reading.rosters| == |reading.requests|
    && (exists p :: 0 <= p <= |punches| && reading.rows == Attendance.Run(Attendance.EMPTY_REGISTER, punches[..p]).rows)
    && (exists c :: 0 <= c <= |calls| && reading.requests == Run([], calls[..c]))
  }

  /** The payslips of an employee for different months, each computed at its own moment. */
  ghost predicate Payslips(punches: seq<Attendance.Call>, calls: seq<Call>, readings: seq<Reading>) {
    && (forall i :: 0 <= i < |readings| ==> TakenFrom(punches, calls, readings[i]))
    && (forall i, k, day :: 0 <= i < k < |readings| && readings[i].window.Has(day) ==> !readings[k].window.Has(day))
  }

  /** Any different payroll months have such windows. */
  lemma PayrollWindowsAreDisjoint(punches: seq<Attendance.Call>, calls: seq<Call>, readings: seq<Reading>,
                                  months: seq<(int, int)>)
    requires |months| == |readings| && forall i, k :: 0 <= i < k < |months| ==> months[i] != months[k]
    requires forall i :: 0 <= i < |readings| ==>
               && TakenFrom(punches, calls, readings[i])
               && 1 <= months[i].1 <= 12 && readings[i].window == MonthRange(months[i].0, months[i].1)
    ensures Payslips(punches, calls, readings)
  {
    forall i, k, day | 0 <= i < k < |readings| && readings[i].window.Has(day)
      ensures !readings[k].window.Has(day)
    {
      if readings[k].window.Has(day) {
        MonthsAreDisjoint(months[i].0, months[i].1, months[k].0, months[k].1, day);
      }
    }
  }

  function Total(amounts: seq<real>): real {
    if amounts == [] then 0.0 else Total(amounts[..|amounts| - 1]) + amounts[|amounts| - 1]
  }

  lemma {:induction false} TotalAdds(sums: seq<real>, a: seq<real>, b: seq<real>)
    requires |sums| == |a| == |b| && forall i :: 0 <= i < |sums| ==> sums[i] == a[i] + b[i]
    ensures Total(sums) == Total(a) + Total(b)
  {
    if sums != [] {
      var n := |sums| - 1;
      TotalAdds(sums[..n], a[..n], b[..n]);
    }
  }

  /** Amounts of which at most one is not zero. */
  lemma {:induction false} TotalOfAtMostOne(amounts: seq<real>)
    requires forall i :: 0 <= i < |amounts| ==> amounts[i] >= 0.0
    requires forall i, k :: 0 <= i < k < |amounts| ==> amounts[i] == 0.0 || amounts[k] == 0.0
    ensures Total(amounts) == 0.0 || exists i :: 0 <= i < |amounts| && Total(amounts) == amounts[i]
    ensures forall i :: 0 <= i < |amounts| ==> amounts[i] <= Total(amounts)
  {
    if amounts != [] {
      var rest := amounts[..|amounts| - 1];
      assert forall i :: 0 <= i < |rest| ==> rest[i] == amounts[i];
      TotalOfAtMostOne(rest);
    }
  }

  function AbsencesOf(readings: seq<Reading>, employeeId: EmployeeId, day: Day): (amounts: seq<real>)
    ensures |amounts| == |readings|
    ensures forall i :: 0 <= i < |amounts| ==> amounts[i] == readings[i].Absences(employeeId, day)
  {
    seq(|readings|, i requires 0 <= i < |readings| => readings[i].Absences(employeeId, day))
  }

  function LeaveOf(readings: seq<Reading>, employeeId: EmployeeId, day: Day): (amounts: seq<real>)
    requires forall i :: 0 <= i < |readings| ==> |readings[i].rosters| == |readings[i].requests|
    ensures |amounts| == |readings|
    ensures forall i :: 0 <= i < |amounts| ==> amounts[i] == readings[i].Leave(employeeId, day)
  {
    seq(|readings|, i requires 0 <= i < |readings| => readings[i].Leave(employeeId, day))
  }

  /** What the payslips deduct for a day, all together. */
  function DeductedOf(readings: seq<Reading>, employeeId: EmployeeId, day: Day): (amounts: seq<real>)
    requires forall i :: 0 <= i < |readings| ==> |readings[i].rosters| == |readings[i].requests|
    ensures |amounts| == |readings|
    ensures forall i :: 0 <= i < |amounts| ==> amounts[i] == readings[i].Deducted(employeeId, day)
  {
    seq(|readings|, i requires 0 <= i < |readings| => readings[i].Deducted(employeeId, day))
  }

  /** An absence is charged to the month of its date, and to no other. */
  lemma AbsenceChargedOnce(punches: seq<Attendance.Call>, calls: seq<Call>, readings: seq<Reading>,
                           employeeId: EmployeeId, day: Day)
    requires Payslips(punches, calls, readings)
    ensures var amounts := AbsencesOf(readings, employeeId, day);
            && Total(amounts) in {0.0, 1.0}
            && (Total(amounts) > 0.0 <==>
                  exists i :: 0 <= i < |readings| && readings[i].Absences(employeeId, day) > 0.0)
  {
    var amounts := AbsencesOf(readings, employeeId, day);
    forall i | 0 <= i < |readings|
      ensures amounts[i] in {0.0, 1.0} && (amounts[i] > 0.0 ==> readings[i].window.Has(day))
    {
      var reading := readings[i];
      assert TakenFrom(punches, calls, reading);
      var p :| 0 <= p <= |punches| && reading.rows == Attendance.Run(Attendance.EMPTY_REGISTER, punches[..p]).rows;
      Attendance.RunKeepsKeys(Attendance.EMPTY_REGISTER, punches[..p]);
      var nextId := Attendance.Run(Attendance.EMPTY_REGISTER, punches[..p]).nextId;
      AbsencesOnIff(reading.rows, employeeId, reading.window, day);
      AbsentAtMostOnce(reading.rows, nextId, employeeId, reading.window, day);
    }
    TotalOfAtMostOne(amounts);
  }

  /** A request that holds a day of leave charged by a reading. */
  lemma ChargedRequest(calls: seq<Call>, c: nat, reading: Reading, employeeId: EmployeeId, day: Day) returns (a: nat)
    requires c <= |calls| && reading.requests == Run([], calls[..c]) && |reading.rosters| == |reading.requests|
    requires reading.Leave(employeeId, day) > 0.0
    ensures a < |reading.requests| && reading.requests[a].range.Has(day)
    ensures IsUnpaid(reading.requests[a], reading.types, employeeId, reading.window)
  {
    LeaveOnIff(reading.requests, reading.rosters, reading.types, employeeId, reading.window, day);
    a :| 0 <= a < |reading.requests| && IsUnpaid(reading.requests[a], reading.types, employeeId, reading.window)
         && reading.requests[a].range.Has(day);
  }

  /** A day of leave is charged to the month its request starts in, and to no other - also when
      the other payslip is computed much later. */
  lemma OneMonthCharges(calls: seq<Call>, c: nat, d: nat, first: Reading, second: Reading, employeeId: EmployeeId,
                        day: Day)
    requires c <= d <= |calls| && first.requests == Run([], calls[..c]) && second.requests == Run([], calls[..d])
    requires |first.rosters| == |first.requests| && |second.rosters| == |second.requests|
    requires first.Leave(employeeId, day) > 0.0 && second.Leave(employeeId, day) > 0.0
    ensures exists start :: first.window.Has(start) && second.window.Has(start)
  {
    var a := ChargedRequest(calls, c, first, employeeId, day);
    var b := ChargedRequest(calls, d, second, employeeId, day);
    ApprovedStays(calls, c, d, a);
    RunKeepsSound([], calls[..d]);
    OneRequestADay(second.requests, a, b, day);
    assert first.window.Has(second.requests[b].range.from);
  }

  /** A request approved after some calls reads the same after more of them. */
  lemma ApprovedStays(calls: seq<Call>, c: nat, d: nat, a: nat)
    requires c <= d <= |calls| && a < |Run([], calls[..c])| && Run([], calls[..c])[a].status == Approved
    ensures a < |Run([], calls[..d])| && Run([], calls[..d])[a] == Run([], calls[..c])[a]
  {
    RunSplits([], calls[..c], calls[c..d]);
    assert calls[..c] + calls[c..d] == calls[..d];
    DecisionsAreFinal(Run([], calls[..c]), calls[c..d], a);
  }

  lemma LeaveChargedOnce(punches: seq<Attendance.Call>, calls: seq<Call>, readings: seq<Reading>,
                         employeeId: EmployeeId, day: Day)
    requires Payslips(punches, calls, readings)
    ensures var amounts := LeaveOf(readings, employeeId, day);
            && 0.0 <= Total(amounts) <= 1.0
            && (Total(amounts) > 0.0 <==> exists i :: 0 <= i < |readings| && readings[i].Leave(employeeId, day) > 0.0)
  {
    var amounts := LeaveOf(readings, employeeId, day);
    forall i | 0 <= i < |readings|
      ensures 0.0 <= amounts[i] <= 1.0
    {
      var reading := readings[i];
      assert TakenFrom(punches, calls, reading);
      var c :| 0 <= c <= |calls| && reading.requests == Run([], calls[..c]);
      RunKeepsSound([], calls[..c]);
      LeaveOnIff(reading.requests, reading.rosters, reading.types, employeeId, reading.window, day);
      LeaveOnAtMostOnce(reading.requests, reading.rosters, reading.types, employeeId, reading.window, day);
    }
    forall i, k | 0 <= i < k < |readings|
      ensures amounts[i] == 0.0 || amounts[k] == 0.0
    {
      NoTwoMonthsCharge(punches, calls, readings, employeeId, day, i, k);
    }
    TotalOfAtMostOne(amounts);
  }

  lemma NoTwoMonthsCharge(punches: seq<Attendance.Call>, calls: seq<Call>, readings: seq<Reading>,
                          employeeId: EmployeeId, day: Day, i: nat, k: nat)
    requires Payslips(punches, calls, readings) && i < k < |readings|
    ensures !(readings[i].Leave(employeeId, day) > 0.0 && readings[k].Leave(employeeId, day) > 0.0)
  {
    assert TakenFrom(punches, calls, readings[i]) && TakenFrom(punches, calls, readings[k]);
    var c :| 0 <= c <= |calls| && readings[i].requests == Run([], calls[..c]);
    var d :| 0 <= d <= |calls| && readings[k].requests == Run([], calls[..d]);
    if readings[i].Leave(employeeId, day) > 0.0 && readings[k].Leave(employeeId, day) > 0.0 {
      if c <= d {
        OneMonthCharges(calls, c, d, readings[i], readings[k], employeeId, day);
      } else {
        OneMonthCharges(calls, d, c, readings[k], readings[i], employeeId, day);
      }
    }
  }

  /** Two live requests of an employee that hold the same day are one. */
  lemma OneRequestADay(requests: seq<LeaveRequest>, a: nat, b: nat, day: Day)
    requires Sound(requests) && a < |requests| && b < |requests|
    requires requests[a].Live() && requests[b].Live() && requests[a].employeeId == requests[b].employeeId
    ensures requests[a].range.Has(day) && requests[b].range.Has(day) ==> a == b
  {
    assert a < b ==> !Clash(requests[a], requests[b]);
    assert b < a ==> !Clash(requests[b], requests[a]);
  }

  /** Some payslip charges the day as an absence, and some - the same one or that of another
      month - as unpaid leave, each under its own rules. */
  predicate ChargedTwice(readings: seq<Reading>, employeeId: EmployeeId, day: Day)
    requires forall i :: 0 <= i < |readings| ==> |readings[i].rosters| == |readings[i].requests|
  {
    && (exists i :: 0 <= i < |readings| && readings[i].Absences(employeeId, day) > 0.0)
    && (exists i :: 0 <= i < |readings| && readings[i].Leave(employeeId, day) > 0.0)
  }

  /** Over every history, and all payslips of an employee for different months, each computed
      at its own moment under the rules and leave types of that moment: together they deduct more
      than one day for a day exactly when one of them charges it as an absence and one of them
      as unpaid leave. */
  lemma {:induction false} DayDeductedTwiceIff(punches: seq<Attendance.Call>, calls: seq<Call>, readings: seq<Reading>,
                                               employeeId: EmployeeId, day: Day)
    requires Payslips(punches, calls, readings)
    ensures Total(DeductedOf(readings, employeeId, day)) > 1.0 <==> ChargedTwice(readings, employeeId, day)
  {
    AbsenceChargedOnce(punches, calls, readings, employeeId, day);
    LeaveChargedOnce(punches, calls, readings, employeeId, day);
    TotalAdds(DeductedOf(readings, employeeId, day), AbsencesOf(readings, employeeId, day),
              LeaveOf(readings, employeeId, day));
  }

  /** Recording an absence by hand on a day - also on one of approved leave, whose on-leave row it
      replaces - makes the payslip of that month charge it. */
  lemma RecordedAbsenceIsCharged(r: Attendance.Register, env: Attendance.Environment, entry: Attendance.ManualEntry,
                                 reading: Reading)
    requires Attendance.Keyed(r)
    requires Attendance.RecordRow(env, entry).Success? && entry.status == Attendance.Absent
    requires reading.rows == Attendance.AfterCall(r, Attendance.Record(env, entry)).rows
    requires reading.rules.deductAbsentDays && reading.window.Has(Attendance.DateOnly(entry.workDate))
    ensures reading.Absences(entry.employeeId, Attendance.DateOnly(entry.workDate)) > 0.0
  {
    var day, row := Attendance.DateOnly(entry.workDate), Attendance.RecordRow(env, entry).value;
    Attendance.WrittenIsFound(r, row);
    var written := Attendance.FindDay(reading.rows, entry.employeeId, day).value;
    var j :| 0 <= j < |reading.rows| && reading.rows[j] == written;
    assert IsAbsence(reading.rows[j], entry.employeeId, reading.window, day);
    AbsencesOnIff(reading.rows, entry.employeeId, reading.window, day);
  }

  /** And nothing stops the double deduction: after an absence was recorded by hand on a day that
      some payslip charges as leave, the payslip of that day's month deducts it once more - the
      same payslip or another. */
  lemma AbsenceOnLeaveDeductedTwice(
    punches: seq<Attendance.Call>, calls: seq<Call>, readings: seq<Reading>, i: nat, k: nat, p: nat,
    env: Attendance.Environment, entry: Attendance.ManualEntry)
    requires Payslips(punches, calls, readings) && i < |readings| && k < |readings| && p <= |punches|
    requires Attendance.RecordRow(env, entry).Success? && entry.status == Attendance.Absent
    requires var r := Attendance.Run(Attendance.EMPTY_REGISTER, punches[..p]);
             readings[i].rows == Attendance.AfterCall(r, Attendance.Record(env, entry)).rows
    requires readings[i].rules.deductAbsentDays && readings[i].window.Has(Attendance.DateOnly(entry.workDate))
    requires |readings[k].rosters| == |readings[k].requests|
    requires readings[k].Leave(entry.employeeId, Attendance.DateOnly(entry.workDate)) > 0.0
    ensures Total(DeductedOf(readings, entry.employeeId, Attendance.DateOnly(entry.workDate))) > 1.0
  {
    Attendance.RunKeepsKeys(Attendance.EMPTY_REGISTER, punches[..p]);
    RecordedAbsenceIsCharged(Attendance.Run(Attendance.EMPTY_REGISTER, punches[..p]), env, entry, readings[i]);
    DayDeductedTwiceIff(punches, calls, readings, entry.employeeId, Attendance.DateOnly(entry.workDate));
  }

  // ---- a day deducted by two months -------------------------------------------------------------------

  /** Unpaid leave over the end of January, in any year. */
  function Winter(year: int): DateRange {
    DateRange(Date(year, 1, 31), Date(year, 2, 2))
  }

  function WinterCalls(year: int): seq<Call> {
    var env := Leave.Environment(map[7 := Attendance.Staff(true, None)], [LeaveType(0.0, false, true, false)],
                                 LeaveRules(0, 0, false, false), 0);
    var application := Application(7, 0, Winter(year).from * DAY, Winter(year).to * DAY, false);
    [Request(env, application), Approve(env, 0, Review(1, 0, ""))]
  }

  function WinterPunches(year: int): seq<Attendance.Call> {
    var env := Attendance.Environment(map[7 := Attendance.Staff(true, None)],
                                      Attendance.AttendanceRules(480, 240, false, 0, true), 0);
    [Attendance.Record(env, Attendance.ManualEntry(7, Date(year, 2, 1) * DAY, None, None, Attendance.Absent))]
  }

  /** The three days of the leave, two of them in February. */
  lemma WinterDays(year: int)
    ensures Winter(year).to == Winter(year).from + 2 && Date(year, 2, 1) == Winter(year).from + 1
    ensures MonthRange(year, 1).Has(Winter(year).from) && !MonthRange(year, 2).Has(Winter(year).from)
    ensures !MonthRange(year, 1).Has(Date(year, 2, 1)) && MonthRange(year, 2).Has(Date(year, 2, 1))
  {
    DateInYear(year, 1, 31);
    DateInYear(year, 2, 1);
    DateInYear(year, 2, 2);
    MonthRangeBounds(year, 1);
    MonthRangeBounds(year, 2);
  }

  lemma WinterRequests(year: int)
    ensures Run([], WinterCalls(year))
         == [LeaveRequest(7, 0, Winter(year), 3.0, false, Approved, Some(Review(1, 0, "")))]
  {
    var calls := WinterCalls(year);
    var env, application := calls[0].env, calls[0].application;
    WinterDays(year);
    assert Attendance.DateOnly(Winter(year).from * DAY) == Winter(year).from;
    assert Attendance.DateOnly(Winter(year).to * DAY) == Winter(year).to;
    RangeDaysCount(Winter(year));
    assert WorkingDays(Winter(year), None, false) == RangeDays(Winter(year));
    assert calls[..1] == [calls[0]] && calls[..1][..0] == [];
    var filed := LeaveRequest(7, 0, Winter(year), 3.0, false, Pending, None);
    assert Filed(env, [], application) == Success(filed);
    assert Run([], calls[..1]) == AfterCall([], calls[0]) == [filed];
    assert Run([], calls) == AfterCall([filed], calls[1]);
  }

  lemma WinterRows(year: int)
    ensures Attendance.Run(Attendance.EMPTY_REGISTER, WinterPunches(year)).rows
         == [Attendance.Row(0, 7, Date(year, 2, 1), None, None, Attendance.Absent, Attendance.Manual, 0, 0, 0, 0)]
  {
    AbsenceRecorded(WinterPunches(year)[0].env, Date(year, 2, 1));
    assert WinterPunches(year)[..0] == [];
  }

  /** Recording an absence of employee 7 on the empty register. */
  lemma AbsenceRecorded(env: Attendance.Environment, day: Day)
    requires 7 in env.staff && env.staff[7].shift == None && env.rules.allowFutureEntry
    ensures var entry := Attendance.ManualEntry(7, day * DAY, None, None, Attendance.Absent);
            Attendance.AfterCall(Attendance.EMPTY_REGISTER, Attendance.Record(env, entry)).rows
            == [Attendance.Row(0, 7, day, None, None, Attendance.Absent, Attendance.Manual, 0, 0, 0, 0)]
  {
    assert Attendance.DateOnly(day * DAY) == day;
  }

  function WinterReading(rules: Payroll.PayrollRules, year: int, month: int): Reading
    requires 1 <= month <= 12
  {
    Reading(MonthRange(year, month), rules, WinterCalls(year)[0].env.types,
            Attendance.Run(Attendance.EMPTY_REGISTER, WinterPunches(year)).rows, Run([], WinterCalls(year)),
            [Roster(None, false)])
  }

  /** The failing input, reached by filing, approving and recording: unpaid leave from 31 January
      to 2 February, 1 February recorded absent. January's payslip deducts 1 February as leave,
      February's deducts it again as an absence, and neither deducts it twice itself. */
  lemma DeductedInTwoMonths(rules: Payroll.PayrollRules, year: int)
    requires rules.deductAbsentDays && rules.deductUnpaidLeave
    ensures var january, february := WinterReading(rules, year, 1), WinterReading(rules, year, 2);
            && Payslips(WinterPunches(year), WinterCalls(year), [january, february])
            && AllFiledUnder(january.requests, january.rosters)
            && january.Deducted(7, Date(year, 2, 1)) == 1.0 && february.Deducted(7, Date(year, 2, 1)) == 1.0
            && Total(DeductedOf([january, february], 7, Date(year, 2, 1))) == 2.0
  {
    var january, february := WinterReading(rules, year, 1), WinterReading(rules, year, 2);
    WinterCharges(rules, year);
    WinterIsFiledUnder(rules, year);
    WinterPayslips(rules, year);
    TotalOfTwo(DeductedOf([january, february], 7, Date(year, 2, 1)));
  }

  lemma WinterCharges(rules: Payroll.PayrollRules, year: int)
    requires rules.deductAbsentDays && rules.deductUnpaidLeave
    ensures |Run([], WinterCalls(year))| == 1
    ensures WinterReading(rules, year, 1).Deducted(7, Date(year, 2, 1)) == 1.0
    ensures WinterReading(rules, year, 2).Deducted(7, Date(year, 2, 1)) == 1.0
  {
    var january, day := WinterReading(rules, year, 1), Date(year, 2, 1);
    WinterDays(year);
    WinterRequests(year);
    WinterRows(year);
    assert 0 in TypesWith(january.types, false);
    var request, row := january.requests[0], january.rows[0];
    assert Portion(request, Roster(None, false), day) == 1.0;
    OneRowOneRequest(row, request, Roster(None, false), january.types, 7, MonthRange(year, 1), day);
    OneRowOneRequest(row, request, Roster(None, false), january.types, 7, MonthRange(year, 2), day);
    assert IsUnpaid(request, january.types, 7, MonthRange(year, 1));
    assert !IsUnpaid(request, january.types, 7, MonthRange(year, 2));
    assert !IsAbsence(row, 7, MonthRange(year, 1), day) && IsAbsence(row, 7, MonthRange(year, 2), day);
  }

  lemma WinterReadingsAreTaken(rules: Payroll.PayrollRules, year: int)
    ensures TakenFrom(WinterPunches(year), WinterCalls(year), WinterReading(rules, year, 1))
    ensures TakenFrom(WinterPunches(year), WinterCalls(year), WinterReading(rules, year, 2))
  {
    WinterRequests(year);
    var punches, calls := WinterPunches(year), WinterCalls(year);
    assert punches[..|punches|] == punches && calls[..|calls|] == calls;
  }

  lemma WinterPayslips(rules: Payroll.PayrollRules, year: int)
    ensures Payslips(WinterPunches(year), WinterCalls(year),
                     [WinterReading(rules, year, 1), WinterReading(rules, year, 2)])
  {
    WinterReadingsAreTaken(rules, year);
    PayrollWindowsAreDisjoint(WinterPunches(year), WinterCalls(year),
                              [WinterReading(rules, year, 1), WinterReading(rules, year, 2)],
                              [(year, 1), (year, 2)]);
  }

  lemma WinterIsFiledUnder(rules: Payroll.PayrollRules, year: int)
    ensures AllFiledUnder(WinterReading(rules, year, 1).requests, WinterReading(rules, year, 1).rosters)
  {
    WinterRequests(year);
    WinterDays(year);
    RangeDaysCount(Winter(year));
    assert WorkingDays(Winter(year), None, false) == RangeDays(Winter(year));
  }

  lemma TotalOfTwo(amounts: seq<real>)
    requires |amounts| == 2
    ensures Total(amounts) == amounts[0] + amounts[1]
  {
    var first := amounts[..1];
    assert first == [amounts[0]] && first[..0] == [];
    assert Total(first) == Total(first[..0]) + amounts[0];
  }

  lemma OneRowOneRequest(row: Attendance.Row, request: LeaveRequest, roster: Roster, types: seq<LeaveType>,
                         employeeId: EmployeeId, window: DateRange, day: Day)
    ensures AbsencesOn([row], employeeId, window, day) == if IsAbsence(row, employeeId, window, day) then 1.0 else 0.0
    ensures LeaveOn([request], [roster], types, employeeId, window, day)
         == if IsUnpaid(request, types, employeeId, window) then Portion(request, roster, day) else 0.0
  {
    assert [row][..0] == [] && [request][..0] == [] && [roster][..0] == [];
  }
}
