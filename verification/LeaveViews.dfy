/** The views that total approved leave: the balance screen by type and calendar year, payroll
    by paid and unpaid and payroll month. */
module LeaveViews {
  import opened Calendar
  import opened Leave
  import opened LeaveSafety

  function TypesWith(types: seq<LeaveType>, paid: bool): set<LeaveTypeId> {
    set t: LeaveTypeId | t < |types| && types[t].isPaid == paid
  }

  function AllTypes(types: seq<LeaveType>): set<LeaveTypeId> {
    set t: LeaveTypeId | t < |types| && Known(types, t)
  }

  predicate Known(types: seq<LeaveType>, t: LeaveTypeId) { t < |types| }

  /** The types the balance screen does not list: inactive or deleted ones. */
  function HiddenTypes(types: seq<LeaveType>): set<LeaveTypeId> {
    set t: LeaveTypeId | t < |types| && !IsListed(types, t)
  }

  function ListedTypes(types: seq<LeaveType>, n: nat): set<LeaveTypeId> {
    set t: LeaveTypeId | t < n && IsListed(types, t)
  }

  /** SumApprovedByPayType for one employee. */
  datatype PayDays = PayDays(paidDays: real, unpaidDays: real)

  function SumApprovedByPayType(rows: seq<LeaveRequest>, types: seq<LeaveType>, employeeId: EmployeeId,
                                window: DateRange): PayDays {
    PayDays(ApprovedDays(rows, employeeId, TypesWith(types, true), window),
            ApprovedDays(rows, employeeId, TypesWith(types, false), window))
  }

  /** Approved days of disjoint sets of types add up. */
  lemma {:induction false} ApprovedDaysOfUnion(rows: seq<LeaveRequest>, employeeId: EmployeeId, a: set<LeaveTypeId>,
                                               b: set<LeaveTypeId>, window: DateRange)
    requires a !! b
    ensures ApprovedDays(rows, employeeId, a + b, window)
         == ApprovedDays(rows, employeeId, a, window) + ApprovedDays(rows, employeeId, b, window)
  {
    if rows != [] {
      ApprovedDaysOfUnion(rows[..|rows| - 1], employeeId, a, b, window);
    }
  }

  /** Paid and unpaid days over the payroll months month .. 12 of a year. */
  function PayrollDays(rows: seq<LeaveRequest>, types: seq<LeaveType>, employeeId: EmployeeId, year: int,
                       month: int): real
    requires 1 <= month <= 13
    decreases 13 - month
  {
    if month == 13 then 0.0
    else
      var days := SumApprovedByPayType(rows, types, employeeId, MonthRange(year, month));
      days.paidDays + days.unpaidDays + PayrollDays(rows, types, employeeId, year, month + 1)
  }

  lemma PayTypesSplit(rows: seq<LeaveRequest>, types: seq<LeaveType>, employeeId: EmployeeId, window: DateRange)
    ensures var days := SumApprovedByPayType(rows, types, employeeId, window);
            days.paidDays + days.unpaidDays == ApprovedDays(rows, employeeId, AllTypes(types), window)
  {
    assert AllTypes(types) == TypesWith(types, true) + TypesWith(types, false);
    ApprovedDaysOfUnion(rows, employeeId, TypesWith(types, true), TypesWith(types, false), window);
  }

  /** Each approved request counts once for every month that has its first day. */
  lemma {:induction false} PayrollDaysOfLast(rows: seq<LeaveRequest>, types: seq<LeaveType>, employeeId: EmployeeId,
                                             year: int, month: int)
    requires 1 <= month <= 13 && rows != []
    ensures var row := rows[|rows| - 1];
            PayrollDays(rows, types, employeeId, year, month)
            == PayrollDays(rows[..|rows| - 1], types, employeeId, year, month)
               + (if row.status == Approved && row.employeeId == employeeId && row.leaveTypeId in AllTypes(types)
                     && MonthsWith(year, month, row.range.from) == 1 then row.days else 0.0)
    decreases 13 - month
  {
    if month < 13 {
      var rest, row := rows[..|rows| - 1], rows[|rows| - 1];
      PayrollDaysOfLast(rows, types, employeeId, year, month + 1);
      PayTypesSplit(rows, types, employeeId, MonthRange(year, month));
      PayTypesSplit(rest, types, employeeId, MonthRange(year, month));
      MonthsWithFrom(year, month, row.range.from);
      MonthsWithFrom(year, month + 1, row.range.from);
    }
  }

  /** Conservation: the paid and unpaid days of the twelve payroll months are the approved days
      of the calendar year - no approved request is paid twice or falls between two runs. */
  lemma {:induction false} PayrollMonthsAreTheLeaveYear(rows: seq<LeaveRequest>, types: seq<LeaveType>,
                                                        employeeId: EmployeeId, year: int)
    ensures PayrollDays(rows, types, employeeId, year, 1)
         == ApprovedDays(rows, employeeId, AllTypes(types), CalendarYear(year))
  {
    if rows == [] {
      NothingToPay(types, employeeId, year, 1);
    } else {
      PayrollMonthsAreTheLeaveYear(rows[..|rows| - 1], types, employeeId, year);
      PayrollDaysOfLast(rows, types, employeeId, year, 1);
      MonthsPartitionYear(year, rows[|rows| - 1].range.from);
    }
  }

  lemma NothingToPay(types: seq<LeaveType>, employeeId: EmployeeId, year: int, month: int)
    requires 1 <= month <= 13
    ensures PayrollDays([], types, employeeId, year, month) == 0.0
    decreases 13 - month
  {
    if month < 13 {
      NothingToPay(types, employeeId, year, month + 1);
    }
  }

  // ---- against the balance screen ------------------------------------------------------------------

  function TakenTotal(lines: seq<Balance>): real {
    if lines == [] then 0.0 else TakenTotal(lines[..|lines| - 1]) + lines[|lines| - 1].taken
  }

  lemma {:induction false} LinesTotal(rows: seq<LeaveRequest>, types: seq<LeaveType>, n: nat, employeeId: EmployeeId,
                                      year: int)
    requires Sound(rows) && n <= |types|
    ensures TakenTotal(Lines(rows, types, n, employeeId, year))
         == ApprovedDays(rows, employeeId, ListedTypes(types, n), CalendarYear(year))
  {
    var window := CalendarYear(year);
    if n == 0 {
      NoTypesNoDays(rows, employeeId, window);
      assert ListedTypes(types, 0) == {};
    } else {
      var before := Lines(rows, types, n - 1, employeeId, year);
      LinesTotal(rows, types, n - 1, employeeId, year);
      if IsListed(types, n - 1) {
        var line := BalanceOf(rows, types, n - 1, employeeId, year);
        assert (before + [line])[..|before|] == before;
        ApprovedInHalves(rows, employeeId, {n - 1}, window);
        HalvesRoundExactly(ApprovedDays(rows, employeeId, {n - 1}, window));
        assert ListedTypes(types, n) == ListedTypes(types, n - 1) + {n - 1};
        ApprovedDaysOfUnion(rows, employeeId, ListedTypes(types, n - 1), {n - 1}, window);
      } else {
        assert Lines(rows, types, n, employeeId, year) == before;
        assert ListedTypes(types, n) == ListedTypes(types, n - 1);
      }
    }
  }

  lemma {:induction false} NoTypesNoDays(rows: seq<LeaveRequest>, employeeId: EmployeeId, window: DateRange)
    ensures ApprovedDays(rows, employeeId, {}, window) == 0.0
  {
    if rows != [] {
      NoTypesNoDays(rows[..|rows| - 1], employeeId, window);
    }
  }

  /** In every reachable state the "taken" column of the balance screen adds up to the days the
      twelve payroll runs of the year see, exactly when no approved request of the year is of a
      type that has since been deactivated or deleted. */
  lemma {:induction false} BalanceScreenMatchesPayrollIff(calls: seq<Call>, types: seq<LeaveType>,
                                                          employeeId: EmployeeId, year: int)
    ensures var rows := Run([], calls);
            TakenTotal(Lines(rows, types, |types|, employeeId, year)) == PayrollDays(rows, types, employeeId, year, 1)
            <==> !exists i :: 0 <= i < |rows|
                              && IsApprovedIn(rows[i], employeeId, HiddenTypes(types), CalendarYear(year))
  {
    var rows, window := Run([], calls), CalendarYear(year);
    RunKeepsSound([], calls);
    LinesTotal(rows, types, |types|, employeeId, year);
    PayrollMonthsAreTheLeaveYear(rows, types, employeeId, year);
    var listed, hidden := ListedTypes(types, |types|), HiddenTypes(types);
    assert AllTypes(types) == listed + hidden;
    ApprovedDaysOfUnion(rows, employeeId, listed, hidden, window);
    ApprovedInHalves(rows, employeeId, hidden, window);
  }

  /** The day columns a payslip prints are the approved days themselves: rounding them to two
      decimals changes nothing in any reachable state. */
  lemma PayslipLeaveColumnsAreExact(calls: seq<Call>, types: seq<LeaveType>, employeeId: EmployeeId, window: DateRange)
    ensures var days := SumApprovedByPayType(Run([], calls), types, employeeId, window);
            RoundDays(days.paidDays) == days.paidDays && RoundDays(days.unpaidDays) == days.unpaidDays
  {
    var rows := Run([], calls);
    RunKeepsSound([], calls);
    ApprovedInHalves(rows, employeeId, TypesWith(types, true), window);
    ApprovedInHalves(rows, employeeId, TypesWith(types, false), window);
    HalvesRoundExactly(ApprovedDays(rows, employeeId, TypesWith(types, true), window));
    HalvesRoundExactly(ApprovedDays(rows, employeeId, TypesWith(types, false), window));
  }

  // ---- the pending column ------------------------------------------------------------------------

  /** All pending requests of the window among the first n. */
  function AllPending(rows: seq<LeaveRequest>, employeeId: EmployeeId, window: DateRange, n: nat): seq<LeaveRequest>
    requires n <= |rows|
  {
    if n == 0 then []
    else
      AllPending(rows, employeeId, window, n - 1)
      + if IsPendingIn(rows[n - 1], employeeId, window) then [rows[n - 1]] else []
  }

  /** A pending request has fewer listed before it than there are; the last one listed has all
      others before it. */
  lemma {:induction false} RankBelowCount(rows: seq<LeaveRequest>, employeeId: EmployeeId, window: DateRange,
                                          i: nat, n: nat)
    requires i < |rows| && n <= |rows| && IsPendingIn(rows[i], employeeId, window)
    ensures Rank(rows, employeeId, window, i, n) + (if i < n then 1 else 0)
         <= |AllPending(rows, employeeId, window, n)|
    ensures (forall j :: 0 <= j < n && j != i && IsPendingIn(rows[j], employeeId, window) ==>
               ListedBefore(rows, j, i)) ==>
              Rank(rows, employeeId, window, i, n) + (if i < n then 1 else 0)
              == |AllPending(rows, employeeId, window, n)|
  {
    if n > 0 {
      RankBelowCount(rows, employeeId, window, i, n - 1);
    }
  }

  /** The request listed last. */
  lemma {:induction false} LastListed(rows: seq<LeaveRequest>, employeeId: EmployeeId, window: DateRange, n: nat)
    returns (i: nat)
    requires n <= |rows| && AllPending(rows, employeeId, window, n) != []
    ensures i < n && IsPendingIn(rows[i], employeeId, window)
    ensures forall j :: 0 <= j < n && j != i && IsPendingIn(rows[j], employeeId, window) ==> ListedBefore(rows, j, i)
  {
    i := n - 1;
    if AllPending(rows, employeeId, window, n - 1) != [] {
      var k := LastListed(rows, employeeId, window, n - 1);
      if !IsPendingIn(rows[n - 1], employeeId, window) || ListedBefore(rows, n - 1, k) {
        i := k;
      }
    } else {
      NonePending(rows, employeeId, window, n - 1);
    }
  }

  lemma {:induction false} NonePending(rows: seq<LeaveRequest>, employeeId: EmployeeId, window: DateRange, n: nat)
    requires n <= |rows| && AllPending(rows, employeeId, window, n) == []
    ensures forall j :: 0 <= j < n ==> !IsPendingIn(rows[j], employeeId, window)
  {
    if n > 0 {
      NonePending(rows, employeeId, window, n - 1);
    }
  }

  lemma DaysOfTypeLast(rows: seq<LeaveRequest>, row: LeaveRequest, t: LeaveTypeId)
    ensures DaysOfType(rows + [row], t) == DaysOfType(rows, t) + if row.leaveTypeId == t then row.days else 0.0
  {
    assert (rows + [row])[..|rows|] == rows;
  }

  lemma PageStep(rows: seq<LeaveRequest>, employeeId: EmployeeId, window: DateRange, n: nat, t: LeaveTypeId)
    requires n < |rows|
    ensures DaysOfType(Page(rows, employeeId, window, n + 1), t)
         == DaysOfType(Page(rows, employeeId, window, n), t)
            + if OnPage(rows, employeeId, window, n) && rows[n].leaveTypeId == t then rows[n].days else 0.0
  {
    var shown := Page(rows, employeeId, window, n);
    DaysOfTypeLast(shown, rows[n], t);
    assert shown + [] == shown;
  }

  lemma AllPendingStep(rows: seq<LeaveRequest>, employeeId: EmployeeId, window: DateRange, n: nat, t: LeaveTypeId)
    requires n < |rows|
    ensures DaysOfType(AllPending(rows, employeeId, window, n + 1), t)
         == DaysOfType(AllPending(rows, employeeId, window, n), t)
            + if IsPendingIn(rows[n], employeeId, window) && rows[n].leaveTypeId == t then rows[n].days else 0.0
  {
    var all := AllPending(rows, employeeId, window, n);
    DaysOfTypeLast(all, rows[n], t);
    assert all + [] == all;
  }

  /** Request i is pending but not shown. */
  predicate LeftOut(rows: seq<LeaveRequest>, employeeId: EmployeeId, window: DateRange, i: nat)
    requires i < |rows|
  {
    IsPendingIn(rows[i], employeeId, window) && !OnPage(rows, employeeId, window, i)
  }

  /** The days of one type that the page leaves out, among the first n requests. */
  function HiddenDays(rows: seq<LeaveRequest>, employeeId: EmployeeId, window: DateRange, n: nat, t: LeaveTypeId): real
    requires n <= |rows|
  {
    if n == 0 then 0.0
    else
      HiddenDays(rows, employeeId, window, n - 1, t)
      + if LeftOut(rows, employeeId, window, n - 1) && rows[n - 1].leaveTypeId == t then rows[n - 1].days else 0.0
  }

  lemma {:induction false} PageAndHidden(rows: seq<LeaveRequest>, employeeId: EmployeeId, window: DateRange, n: nat,
                                         t: LeaveTypeId)
    requires n <= |rows|
    ensures DaysOfType(AllPending(rows, employeeId, window, n), t)
         == DaysOfType(Page(rows, employeeId, window, n), t) + HiddenDays(rows, employeeId, window, n, t)
  {
    if n > 0 {
      PageAndHidden(rows, employeeId, window, n - 1, t);
      PageStep(rows, employeeId, window, n - 1, t);
      AllPendingStep(rows, employeeId, window, n - 1, t);
    }
  }

  /** A request left out hides some days of its type. */
  lemma {:induction false} LeftOutHidesDays(rows: seq<LeaveRequest>, employeeId: EmployeeId, window: DateRange, n: nat,
                                            i: nat, t: LeaveTypeId)
    requires n <= |rows| && i < |rows| && forall k :: 0 <= k < |rows| ==> rows[k].days > 0.0
    ensures HiddenDays(rows, employeeId, window, n, t) >= 0.0
    ensures i < n && rows[i].leaveTypeId == t && LeftOut(rows, employeeId, window, i) ==>
              HiddenDays(rows, employeeId, window, n, t) > 0.0
  {
    if n > 0 {
      LeftOutHidesDays(rows, employeeId, window, n - 1, i, t);
    }
  }

  lemma {:induction false} PageIsAll(rows: seq<LeaveRequest>, employeeId: EmployeeId, window: DateRange, n: nat)
    requires n <= |rows| && |AllPending(rows, employeeId, window, |rows|)| <= PENDING_BALANCE_LIMIT
    ensures Page(rows, employeeId, window, n) == AllPending(rows, employeeId, window, n)
  {
    if n > 0 {
      PageIsAll(rows, employeeId, window, n - 1);
      if IsPendingIn(rows[n - 1], employeeId, window) {
        RankBelowCount(rows, employeeId, window, n - 1, |rows|);
      }
    }
  }

  lemma RequestsTakeDays(rows: seq<LeaveRequest>)
    requires Sound(rows)
    ensures forall k :: 0 <= k < |rows| ==> rows[k].days > 0.0
  {
    forall k | 0 <= k < |rows|
      ensures rows[k].days > 0.0
    {
      assert SoundRow(rows[k]);
    }
  }

  /** In every reachable state the limited listing holds all pending days of every type, listed
      on the screen or not, exactly when the employee has at most 200 pending requests that start
      in the year. */
  lemma PageIsCompleteIff(calls: seq<Call>, employeeId: EmployeeId, year: int)
    ensures var rows, window := Run([], calls), CalendarYear(year);
            (forall t :: DaysOfType(Page(rows, employeeId, window, |rows|), t)
                         == DaysOfType(AllPending(rows, employeeId, window, |rows|), t))
            <==> |AllPending(rows, employeeId, window, |rows|)| <= PENDING_BALANCE_LIMIT
  {
    var rows, window := Run([], calls), CalendarYear(year);
    RunKeepsSound([], calls);
    if |AllPending(rows, employeeId, window, |rows|)| <= PENDING_BALANCE_LIMIT {
      PageIsAll(rows, employeeId, window, |rows|);
    } else {
      var i := LastListed(rows, employeeId, window, |rows|);
      RankBelowCount(rows, employeeId, window, i, |rows|);
      RequestsTakeDays(rows);
      LeftOutHidesDays(rows, employeeId, window, |rows|, i, rows[i].leaveTypeId);
      PageAndHidden(rows, employeeId, window, |rows|, rows[i].leaveTypeId);
    }
  }

  lemma {:induction false} NothingHidden(rows: seq<LeaveRequest>, employeeId: EmployeeId, window: DateRange, n: nat,
                                         t: LeaveTypeId)
    requires n <= |rows|
    requires forall i :: 0 <= i < n && LeftOut(rows, employeeId, window, i) ==> rows[i].leaveTypeId != t
    ensures HiddenDays(rows, employeeId, window, n, t) == 0.0
  {
    if n > 0 {
      NothingHidden(rows, employeeId, window, n - 1, t);
    }
  }

  lemma {:induction false} PageInHalves(rows: seq<LeaveRequest>, employeeId: EmployeeId, window: DateRange, n: nat,
                                        t: LeaveTypeId)
    requires Sound(rows) && n <= |rows|
    ensures InHalves(DaysOfType(Page(rows, employeeId, window, n), t))
  {
    WholeDaysRoundExactly(0);
    if n > 0 {
      PageInHalves(rows, employeeId, window, n - 1, t);
      PageStep(rows, employeeId, window, n - 1, t);
      assert SoundRow(rows[n - 1]);
      var more := if OnPage(rows, employeeId, window, n - 1) && rows[n - 1].leaveTypeId == t
                  then rows[n - 1].days else 0.0;
      HalvesAdd(DaysOfType(Page(rows, employeeId, window, n - 1), t), more);
    }
  }

  /** The request waits for a decision and starts in the window. */
  predicate Waits(row: LeaveRequest, employeeId: EmployeeId, window: DateRange) {
    row.status == Pending && row.employeeId == employeeId && window.from <= row.range.from <= window.to
  }

  /** All days of a type that wait for a decision. */
  function WaitingDays(rows: seq<LeaveRequest>, employeeId: EmployeeId, window: DateRange, t: LeaveTypeId): real {
    if rows == [] then 0.0
    else
      var last := rows[|rows| - 1];
      WaitingDays(rows[..|rows| - 1], employeeId, window, t)
      + if Waits(last, employeeId, window) && last.leaveTypeId == t then last.days else 0.0
  }

  lemma {:induction false} AllPendingDays(rows: seq<LeaveRequest>, employeeId: EmployeeId, window: DateRange, n: nat,
                                          t: LeaveTypeId)
    requires n <= |rows|
    ensures DaysOfType(AllPending(rows, employeeId, window, n), t) == WaitingDays(rows[..n], employeeId, window, t)
  {
    if n > 0 {
      AllPendingDays(rows, employeeId, window, n - 1, t);
      AllPendingStep(rows, employeeId, window, n - 1, t);
      assert rows[..n][..n - 1] == rows[..n - 1];
    }
  }

  /** The pending figure on the line of a listed type is all that waits, and no request of that
      type is left out of the listing - or neither. */
  lemma LineIsCompleteIff(calls: seq<Call>, types: seq<LeaveType>, t: LeaveTypeId, employeeId: EmployeeId, year: int)
    requires t < |types|
    ensures var rows, window := Run([], calls), CalendarYear(year);
            BalanceOf(rows, types, t, employeeId, year).pending == WaitingDays(rows, employeeId, window, t)
            <==> forall i :: 0 <= i < |rows| && LeftOut(rows, employeeId, window, i) ==> rows[i].leaveTypeId != t
  {
    var rows, window := Run([], calls), CalendarYear(year);
    RunKeepsSound([], calls);
    AllPendingDays(rows, employeeId, window, |rows|, t);
    assert rows[..|rows|] == rows;
    PageInHalves(rows, employeeId, window, |rows|, t);
    HalvesRoundExactly(DaysOfType(Page(rows, employeeId, window, |rows|), t));
    PageAndHidden(rows, employeeId, window, |rows|, t);
    if i :| 0 <= i < |rows| && LeftOut(rows, employeeId, window, i) && rows[i].leaveTypeId == t {
      RequestsTakeDays(rows);
      LeftOutHidesDays(rows, employeeId, window, |rows|, i, t);
    } else {
      NothingHidden(rows, employeeId, window, |rows|, t);
    }
  }

  /** The type is on the screen. */
  predicate OnScreen(types: seq<LeaveType>, t: LeaveTypeId) {
    t < |types| && types[t].active && !types[t].deleted
  }

  /** In every reachable state the pending column of the balance screen is complete - every line
      it shows - exactly when no request left out of the 200 listed is of a type the screen lists. */
  lemma PendingColumnIsCompleteIff(calls: seq<Call>, types: seq<LeaveType>, employeeId: EmployeeId, year: int)
    ensures var rows, window := Run([], calls), CalendarYear(year);
            (forall t :: OnScreen(types, t) ==>
               BalanceOf(rows, types, t, employeeId, year).pending == WaitingDays(rows, employeeId, window, t))
            <==> forall i :: 0 <= i < |rows| && LeftOut(rows, employeeId, window, i) ==>
                   !OnScreen(types, rows[i].leaveTypeId)
  {
    var rows, window := Run([], calls), CalendarYear(year);
    forall t | OnScreen(types, t)
      ensures BalanceOf(rows, types, t, employeeId, year).pending == WaitingDays(rows, employeeId, window, t)
              <==> forall i :: 0 <= i < |rows| && LeftOut(rows, employeeId, window, i) ==> rows[i].leaveTypeId != t
    {
      LineIsCompleteIff(calls, types, t, employeeId, year);
    }
  }

  lemma LinesOfLast(rows: seq<LeaveRequest>, types: seq<LeaveType>, n: nat, employeeId: EmployeeId, year: int)
    requires 0 < n <= |types|
    ensures var before := Lines(rows, types, n - 1, employeeId, year);
            Lines(rows, types, n, employeeId, year)
            == if OnScreen(types, n - 1) then before + [BalanceOf(rows, types, n - 1, employeeId, year)] else before
  {
    var before := Lines(rows, types, n - 1, employeeId, year);
    assert before + [] == before;
  }

  lemma {:induction false} LinesInOrder(rows: seq<LeaveRequest>, types: seq<LeaveType>, n: nat,
                                        employeeId: EmployeeId, year: int)
    requires n <= |types|
    ensures var lines := Lines(rows, types, n, employeeId, year);
            && (forall i :: 0 <= i < |lines| ==>
                  && lines[i].leaveTypeId < n
                  && lines[i] == BalanceOf(rows, types, lines[i].leaveTypeId, employeeId, year))
            && (forall i, k :: 0 <= i < k < |lines| ==> lines[i].leaveTypeId < lines[k].leaveTypeId)
  {
    if n > 0 {
      LinesInOrder(rows, types, n - 1, employeeId, year);
      LinesOfLast(rows, types, n, employeeId, year);
    }
  }

  predicate HasLine(lines: seq<Balance>, t: LeaveTypeId) {
    exists i :: 0 <= i < |lines| && lines[i].leaveTypeId == t
  }

  lemma LineAdded(lines: seq<Balance>, line: Balance, t: LeaveTypeId)
    ensures HasLine(lines + [line], t) <==> HasLine(lines, t) || t == line.leaveTypeId
  {
    if i :| 0 <= i < |lines| && lines[i].leaveTypeId == t {
      assert (lines + [line])[i].leaveTypeId == t;
    }
    assert (lines + [line])[|lines|] == line;
  }

  lemma {:induction false} HasLineIff(rows: seq<LeaveRequest>, types: seq<LeaveType>, n: nat, employeeId: EmployeeId,
                                      year: int, t: LeaveTypeId)
    requires n <= |types|
    ensures HasLine(Lines(rows, types, n, employeeId, year), t) <==> t < n && OnScreen(types, t)
  {
    if n > 0 {
      HasLineIff(rows, types, n - 1, employeeId, year, t);
      LinesOfLast(rows, types, n, employeeId, year);
      LineAdded(Lines(rows, types, n - 1, employeeId, year), BalanceOf(rows, types, n - 1, employeeId, year), t);
    }
  }

  /** The screen has one line for each active type that is not deleted, in order, with the type's
      quota, the rounded days taken, and what is left of the one after the other. */
  lemma LinesAre(rows: seq<LeaveRequest>, types: seq<LeaveType>, employeeId: EmployeeId, year: int)
    ensures var lines := Lines(rows, types, |types|, employeeId, year);
            && (forall t: LeaveTypeId :: HasLine(lines, t) <==> OnScreen(types, t))
            && (forall i, k :: 0 <= i < k < |lines| ==> lines[i].leaveTypeId < lines[k].leaveTypeId)
            && (forall i :: 0 <= i < |lines| ==> lines[i].leaveTypeId < |types|)
            && forall i :: 0 <= i < |lines| ==>
                 var line, t := lines[i], lines[i].leaveTypeId;
                 && line.entitled == types[t].annualQuotaDays
                 && line.taken == RoundDays(ApprovedDays(rows, employeeId, {t}, CalendarYear(year)))
                 && line.remaining == RoundDays(line.entitled - line.taken)
                 && (line.unlimited <==> line.entitled == 0.0)
  {
    LinesInOrder(rows, types, |types|, employeeId, year);
    forall t: LeaveTypeId
      ensures HasLine(Lines(rows, types, |types|, employeeId, year), t) <==> OnScreen(types, t)
    {
      HasLineIff(rows, types, |types|, employeeId, year, t);
    }
  }
}
