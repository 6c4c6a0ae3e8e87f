/** Monthly payroll (backend/internal/service/hrm_payroll_service.go and
    backend/internal/repository/hrm_payroll_repository.go): generating, adjusting, finalising,
    paying and deleting runs. Money is integer cents, day counts are real. A run's id is its
    position in the table, and a deleted run leaves its position empty. A statement the table
    constraints refuse rolls its transaction back. */
module Payroll {
  import opened Rounding
  import opened Wrappers
  import Leave

  type BusinessId = nat
  type EmployeeId = Leave.EmployeeId
  type RunId = nat
  type PayslipId = nat

  // ---- data -----------------------------------------------------------------------------

  datatype Status = Draft | Finalized | Paid

  datatype PayrollRun = PayrollRun(
    businessId: BusinessId,
    year: int,
    month: int,
    status: Status,
    rules: PayrollRules,
    notes: Option<string>,
    finalizedAt: Option<int>,
    paidAt: Option<int>)

  datatype Kind = Earning | Deduction

  datatype Item = Item(kind: Kind, caption: string, amountCents: int)

  datatype DayCounts = DayCounts(
    payable: real,
    present: real,
    absent: real,
    paidLeave: real,
    unpaidLeave: real,
    overtimeMinutes: int)

  /** The money columns of a payslip, in cents. */
  datatype Pay = Pay(
    basic: int,
    overtime: int,
    bonus: int,
    allowance: int,
    absenceDeduction: int,
    epfEmployee: int,
    epfEmployer: int,
    etf: int,
    tax: int,
    otherDeduction: int,
    gross: int,
    deduction: int,
    net: int)

  datatype Payslip = Payslip(
    id: PayslipId,
    runId: RunId,
    businessId: BusinessId,
    employeeId: EmployeeId,
    year: int,
    month: int,
    days: DayCounts,
    pay: Pay,
    status: Status,
    items: seq<Item>)

  datatype PayrollRules = PayrollRules(
    workingDaysPerMonth: real,
    workingHoursPerDay: real,
    overtimeMultiplier: real,
    epfEmployeePercent: real,
    epfEmployerPercent: real,
    etfPercent: real,
    taxPercent: real,
    deductAbsentDays: bool,
    deductUnpaidLeave: bool)

  /** An active employee with the month's attendance and leave totals. */
  datatype Payable = Payable(
    employeeId: EmployeeId,
    basicSalaryCents: int,
    presentDays: real,
    absentDays: real,
    overtimeMinutes: int,
    paidLeaveDays: real,
    unpaidLeaveDays: real)

  datatype Period = Period(year: int, month: int, notes: Option<string>)

  datatype Error =
    | MonthOutOfRange
    | NoWorkingDays
    | AlreadyFinalized
    | NobodyToPay
    | RunNotFound
    | NotDraft
    | NoPayslips
    | NotFinalized
    | PayslipNotFound
    | PayslipFrozen
    | DatabaseRefused

  datatype Books = Books(runs: seq<Option<PayrollRun>>, payslips: seq<Payslip>, nextPayslipId: nat)

  // ---- the salary calculation -----------------------------------------------------------------

  function PercentOf(cents: int, percent: real): int {
    if percent <= 0.0 then 0 else RoundHalfAway(cents as real * percent / 100.0)
  }

  predicate PaysOvertime(e: Payable, rules: PayrollRules) {
    rules.overtimeMultiplier > 0.0 && rules.workingHoursPerDay > 0.0 && e.overtimeMinutes > 0
  }

  /** Overtime before rounding. */
  function OvertimePay(e: Payable, rules: PayrollRules): real
    requires rules.workingDaysPerMonth > 0.0
  {
    if PaysOvertime(e, rules) then
      assert rules.workingDaysPerMonth * rules.workingHoursPerDay != 0.0;
      e.basicSalaryCents as real / (rules.workingDaysPerMonth * rules.workingHoursPerDay)
      / 60.0 * e.overtimeMinutes as real * rules.overtimeMultiplier
    else 0.0
  }

  function UnpaidDays(e: Payable, rules: PayrollRules): real {
    (if rules.deductAbsentDays then e.absentDays else 0.0)
    + (if rules.deductUnpaidLeave then e.unpaidLeaveDays else 0.0)
  }

  /** The absence line before rounding. */
  function AbsencePay(e: Payable, rules: PayrollRules): real
    requires rules.workingDaysPerMonth > 0.0
  {
    e.basicSalaryCents as real / rules.workingDaysPerMonth * UnpaidDays(e, rules)
  }

  /** Gross, deductions and floored net from the components already there. */
  function Retotalled(p: Pay): Pay {
    var gross := p.basic + p.overtime + p.bonus + p.allowance;
    var deduction := p.absenceDeduction + p.epfEmployee + p.tax + p.otherDeduction;
    p.(gross := gross, deduction := deduction, net := if gross < deduction then 0 else gross - deduction)
  }

  function ComputedPay(e: Payable, rules: PayrollRules): Pay
    requires rules.workingDaysPerMonth > 0.0
  {
    var basic := e.basicSalaryCents;
    Retotalled(Pay(
      basic, RoundHalfAway(OvertimePay(e, rules)), 0, 0,
      RoundHalfAway(AbsencePay(e, rules)),
      PercentOf(basic, rules.epfEmployeePercent), PercentOf(basic, rules.epfEmployerPercent),
      PercentOf(basic, rules.etfPercent), PercentOf(basic, rules.taxPercent), 0,
      0, 0, 0))
  }

  function ComputedDays(e: Payable, rules: PayrollRules): DayCounts {
    var payable := rules.workingDaysPerMonth - UnpaidDays(e, rules);
    DayCounts(
      Leave.RoundDays(if payable < 0.0 then 0.0 else payable),
      Leave.RoundDays(e.presentDays),
      Leave.RoundDays(e.absentDays),
      Leave.RoundDays(e.paidLeaveDays),
      Leave.RoundDays(e.unpaidLeaveDays),
      e.overtimeMinutes)
  }

  function Computed(run: PayrollRun, runId: RunId, id: PayslipId, e: Payable, rules: PayrollRules): Payslip
    requires rules.workingDaysPerMonth > 0.0
  {
    Payslip(id, runId, run.businessId, e.employeeId, run.year, run.month, ComputedDays(e, rules), ComputedPay(e, rules),
            Draft, [])
  }

  function NewPayslips(run: PayrollRun, runId: RunId, firstId: PayslipId, employees: seq<Payable>,
                       rules: PayrollRules): (slips: seq<Payslip>)
    requires rules.workingDaysPerMonth > 0.0
    ensures |slips| == |employees|
    ensures forall i :: 0 <= i < |slips| ==> slips[i] == Computed(run, runId, firstId + i, employees[i], rules)
  {
    if employees == [] then []
    else
      var n := |employees| - 1;
      NewPayslips(run, runId, firstId, employees[..n], rules) + [Computed(run, runId, firstId + n, employees[n], rules)]
  }

  function SumItems(items: seq<Item>, kind: Kind): int {
    if items == [] then 0
    else
      var last := items[|items| - 1];
      SumItems(items[..|items| - 1], kind) + if last.kind == kind then last.amountCents else 0
  }

  function Adjusted(p: Payslip, items: seq<Item>): Payslip {
    p.(pay := Retotalled(p.pay.(bonus := SumItems(items, Earning), otherDeduction := SumItems(items, Deduction))),
       items := items)
  }

  // ---- the tables ---------------------------------------------------------------------------------

  /** Which payslips a statement is about. */
  datatype Where =
    | OfRun(runId: RunId)
    | NotOfRun(runId: RunId)
    | OfBusiness(businessId: BusinessId)
    | OfYear(businessId: BusinessId, year: int)
    | OfMonth(businessId: BusinessId, year: int, month: int)
  {
    predicate Has(p: Payslip) {
      match this
      case OfRun(r) => p.runId == r
      case NotOfRun(r) => p.runId != r
      case OfBusiness(b) => p.businessId == b
      case OfYear(b, y) => p.businessId == b && p.year == y
      case OfMonth(b, y, m) => p.businessId == b && p.year == y && p.month == m
    }
  }

  function Select(where: Where, payslips: seq<Payslip>): seq<Payslip> {
    if payslips == [] then []
    else
      var last := payslips[|payslips| - 1];
      Select(where, payslips[..|payslips| - 1]) + if where.Has(last) then [last] else []
  }

  function WithStatus(payslips: seq<Payslip>, runId: RunId, status: Status): (after: seq<Payslip>)
    ensures |after| == |payslips|
    ensures forall i :: 0 <= i < |payslips| ==>
              after[i] == if payslips[i].runId == runId then payslips[i].(status := status) else payslips[i]
  {
    seq(|payslips|, i requires 0 <= i < |payslips| =>
      if payslips[i].runId == runId then payslips[i].(status := status) else payslips[i])
  }

  predicate HasRun(runs: seq<Option<PayrollRun>>, id: RunId) {
    id < |runs| && runs[id].Some?
  }

  predicate IsPeriod(run: PayrollRun, businessId: BusinessId, year: int, month: int) {
    run.businessId == businessId && run.year == year && run.month == month
  }

  function FindRunByPeriod(runs: seq<Option<PayrollRun>>, businessId: BusinessId, year: int,
                           month: int): (found: Option<RunId>)
    ensures found.Some? ==> HasRun(runs, found.value) && IsPeriod(runs[found.value].value, businessId, year, month)
    ensures found.None? ==> forall id: RunId :: HasRun(runs, id) ==> !IsPeriod(runs[id].value, businessId, year, month)
  {
    if runs == [] then None
    else
      var n := |runs| - 1;
      if runs[n].Some? && IsPeriod(runs[n].value, businessId, year, month) then Some(n)
      else FindRunByPeriod(runs[..n], businessId, year, month)
  }

  predicate OwnsRun(runs: seq<Option<PayrollRun>>, businessId: BusinessId, id: RunId) {
    HasRun(runs, id) && runs[id].value.businessId == businessId
  }

  function FindPayslip(payslips: seq<Payslip>, businessId: BusinessId, id: PayslipId): (found: Option<nat>)
    ensures found.Some? ==>
              && found.value < |payslips|
              && payslips[found.value].businessId == businessId && payslips[found.value].id == id
    ensures found.None? ==>
              forall i :: 0 <= i < |payslips| ==> payslips[i].id != id || payslips[i].businessId != businessId
  {
    if payslips == [] then None
    else
      var n := |payslips| - 1;
      if payslips[n].businessId == businessId && payslips[n].id == id then Some(n)
      else FindPayslip(payslips[..n], businessId, id)
  }

  /** The CHECK constraints of hrm_payslips. */
  predicate Storable(p: Payslip) {
    && p.days.overtimeMinutes >= 0
    && p.pay.basic >= 0 && p.pay.overtime >= 0 && p.pay.bonus >= 0 && p.pay.allowance >= 0
    && p.pay.absenceDeduction >= 0 && p.pay.epfEmployee >= 0 && p.pay.epfEmployer >= 0 && p.pay.etf >= 0
    && p.pay.tax >= 0 && p.pay.otherDeduction >= 0 && p.pay.net >= 0
  }

  /** ... and its unique index on (run, employee). */
  predicate InsertAccepted(slips: seq<Payslip>) {
    && (forall i :: 0 <= i < |slips| ==> Storable(slips[i]))
    && (forall i, k :: 0 <= i < k < |slips| ==> slips[i].employeeId != slips[k].employeeId)
  }

  predicate ItemsAccepted(items: seq<Item>) {
    forall i :: 0 <= i < |items| ==> items[i].amountCents >= 0
  }

  // ---- the calls --------------------------------------------------------------------------------------

  /** The run to write into and its position. */
  datatype Target = Target(id: RunId, run: PayrollRun)

  /** resolveRun: the draft of the period, with this computation's rules and notes put into the
      copy in memory, or a new run at the next position. */
  function ResolvedRun(books: Books, businessId: BusinessId, period: Period, rules: PayrollRules)
    : (resolved: Result<Target, Error>)
    ensures resolved.Success? ==>
              && IsPeriod(resolved.value.run, businessId, period.year, period.month)
              && resolved.value.run.status == Draft && resolved.value.run.rules == rules
              && (period.notes.Some? ==> resolved.value.run.notes == period.notes)
              && resolved.value.id <= |books.runs|
    ensures resolved.Failure? ==>
              && resolved.error == AlreadyFinalized
              && exists id: RunId :: HasRun(books.runs, id) && books.runs[id].value.status != Draft
                                     && IsPeriod(books.runs[id].value, businessId, period.year, period.month)
  {
    match FindRunByPeriod(books.runs, businessId, period.year, period.month)
    case Some(id) =>
      var existing := books.runs[id].value;
      if existing.status != Draft then Failure(AlreadyFinalized)
      else
        Success(Target(id, existing.(rules := rules,
                                     notes := if period.notes.Some? then period.notes else existing.notes)))
    case None =>
      Success(Target(|books.runs|,
                     PayrollRun(businessId, period.year, period.month, Draft, rules, period.notes, None, None)))
  }

  function Generated(books: Books, businessId: BusinessId, period: Period, rules: PayrollRules,
                     employees: seq<Payable>): Result<Books, Error> {
    if period.month < 1 || period.month > 12 then Failure(MonthOutOfRange)
    else if rules.workingDaysPerMonth <= 0.0 then Failure(NoWorkingDays)
    else
      match ResolvedRun(books, businessId, period, rules)
      case Failure(e) => Failure(e)
      case Success(target) =>
        if employees == [] then Failure(NobodyToPay)
        else
          var slips := NewPayslips(target.run, target.id, books.nextPayslipId, employees, rules);
          var isNew := target.id == |books.runs|;
          if (isNew && !(2000 <= period.year <= 2200)) || !InsertAccepted(slips) then Failure(DatabaseRefused)
          else
            Success(Books(if isNew then books.runs + [Some(target.run)] else books.runs,
                          Select(NotOfRun(target.id), books.payslips) + slips,
                          books.nextPayslipId + |slips|))
  }

  function Moved(books: Books, businessId: BusinessId, id: RunId, status: Status, now: int): Result<Books, Error> {
    if !OwnsRun(books.runs, businessId, id) then Failure(RunNotFound)
    else
      var run := books.runs[id].value;
      if status == Finalized && run.status != Draft then Failure(NotDraft)
      else if status == Finalized && Select(OfRun(id), books.payslips) == [] then Failure(NoPayslips)
      else if status == Paid && run.status != Finalized then Failure(NotFinalized)
      else
        var stamped := if status == Finalized then run.(finalizedAt := Some(now))
                       else if status == Paid then run.(paidAt := Some(now)) else run;
        Success(Books(books.runs[id := Some(stamped.(status := status))],
                      WithStatus(books.payslips, id, status), books.nextPayslipId))
  }

  function Deleted(books: Books, businessId: BusinessId, id: RunId): Result<Books, Error> {
    if !OwnsRun(books.runs, businessId, id) then Failure(RunNotFound)
    else if books.runs[id].value.status != Draft then Failure(NotDraft)
    else Success(Books(books.runs[id := None], Select(NotOfRun(id), books.payslips), books.nextPayslipId))
  }

  function WithAdjustment(books: Books, businessId: BusinessId, id: PayslipId, items: seq<Item>): Result<Books, Error> {
    match FindPayslip(books.payslips, businessId, id)
    case None => Failure(PayslipNotFound)
    case Some(at) =>
      if books.payslips[at].status != Draft then Failure(PayslipFrozen)
      else if !ItemsAccepted(items) then Failure(DatabaseRefused)
      else Success(books.(payslips := books.payslips[at := Adjusted(books.payslips[at], items)]))
  }

  datatype Call =
    | Generate(businessId: BusinessId, period: Period, rules: PayrollRules, employees: seq<Payable>)
    | Finalize(businessId: BusinessId, id: RunId, now: int)
    | MarkPaid(businessId: BusinessId, id: RunId, now: int)
    | DeleteRun(businessId: BusinessId, id: RunId)
    | AdjustPayslip(businessId: BusinessId, payslipId: PayslipId, items: seq<Item>)

  function Outcome(books: Books, call: Call): Result<Books, Error> {
    match call
    case Generate(b, period, rules, employees) => Generated(books, b, period, rules, employees)
    case Finalize(b, id, now) => Moved(books, b, id, Finalized, now)
    case MarkPaid(b, id, now) => Moved(books, b, id, Paid, now)
    case DeleteRun(b, id) => Deleted(books, b, id)
    case AdjustPayslip(b, id, items) => WithAdjustment(books, b, id, items)
  }

  function AfterCall(books: Books, call: Call): Books {
    match Outcome(books, call)
    case Success(after) => after
    case Failure(_) => books
  }

  function Run(books: Books, calls: seq<Call>): Books {
    if calls == [] then books else AfterCall(Run(books, calls[..|calls| - 1]), calls[|calls| - 1])
  }

  const EMPTY_BOOKS := Books([], [], 0)

  // ---- the service ---------------------------------------------------------------------------------------

  class PayrollService {
    var runs: seq<Option<PayrollRun>>
    var payslips: seq<Payslip>
    var nextPayslipId: nat

    constructor ()
      ensures State() == EMPTY_BOOKS
    {
      runs, payslips, nextPayslipId := [], [], 0;
    }

    function State(): Books
      reads this
    {
      Books(runs, payslips, nextPayslipId)
    }

    static method Retotal(components: Pay) returns (p: Pay)
      ensures p == Retotalled(components)
    {
      p := components;
      p := p.(gross := p.basic + p.overtime + p.bonus + p.allowance);
      p := p.(deduction := p.absenceDeduction + p.epfEmployee + p.tax + p.otherDeduction);
      var net := p.gross - p.deduction;
      if net < 0 {
        net := 0;
      }
      p := p.(net := net);
    }

    static method ComputePayslip(e: Payable, run: PayrollRun, runId: RunId, id: PayslipId, rules: PayrollRules)
      returns (p: Payslip)
      requires rules.workingDaysPerMonth > 0.0
      ensures p == Computed(run, runId, id, e, rules)
    {
      var basic := e.basicSalaryCents;
      var days := DayCounts(
        0.0,
        Leave.RoundDays(e.presentDays),
        Leave.RoundDays(e.absentDays),
        Leave.RoundDays(e.paidLeaveDays),
        Leave.RoundDays(e.unpaidLeaveDays),
        e.overtimeMinutes);
      var pay := Pay(basic, 0, 0, 0, 0, 0, 0, 0, 0, 0, 0, 0, 0);
      if PaysOvertime(e, rules) {
        pay := pay.(overtime := RoundHalfAway(OvertimePay(e, rules)));
      }
      var unpaidDays := 0.0;
      if rules.deductAbsentDays {
        unpaidDays := unpaidDays + e.absentDays;
      }
      if rules.deductUnpaidLeave {
        unpaidDays := unpaidDays + e.unpaidLeaveDays;
      }
      assert unpaidDays == UnpaidDays(e, rules);
      pay := pay.(absenceDeduction := RoundHalfAway(AbsencePay(e, rules)));
      var payable := rules.workingDaysPerMonth - unpaidDays;
      if payable < 0.0 {
        payable := 0.0;
      }
      days := days.(payable := Leave.RoundDays(payable));
      pay := pay.(epfEmployee := PercentOf(basic, rules.epfEmployeePercent));
      pay := pay.(epfEmployer := PercentOf(basic, rules.epfEmployerPercent));
      pay := pay.(etf := PercentOf(basic, rules.etfPercent));
      pay := pay.(tax := PercentOf(basic, rules.taxPercent));
      pay := Retotal(pay);
      p := Payslip(id, runId, run.businessId, e.employeeId, run.year, run.month, days, pay, Draft, []);
    }

    static method ComputePayslips(employees: seq<Payable>, run: PayrollRun, runId: RunId, firstId: PayslipId,
                                  rules: PayrollRules)
      returns (slips: seq<Payslip>)
      requires rules.workingDaysPerMonth > 0.0
      ensures slips == NewPayslips(run, runId, firstId, employees, rules)
    {
      slips := [];
      for i := 0 to |employees|
        invariant slips == NewPayslips(run, runId, firstId, employees[..i], rules)
      {
        var slip := ComputePayslip(employees[i], run, runId, firstId + i, rules);
        slips := slips + [slip];
        assert employees[..i + 1][..i] == employees[..i];
      }
      assert employees[..|employees|] == employees;
    }

    /** A run that is no longer a draft is refused here. The rules and notes go into the copy in
        memory; only a new run is stored with them. */
    method ResolveRun(businessId: BusinessId, period: Period, rules: PayrollRules)
      returns (target: Result<Target, Error>)
      ensures target == ResolvedRun(State(), businessId, period, rules)
    {
      var existing := FindRunByPeriod(runs, businessId, period.year, period.month);
      if existing.Some? {
        var run := runs[existing.value].value;
        if run.status != Draft {
          return Failure(AlreadyFinalized);
        }
        run := run.(rules := rules);
        if period.notes.Some? {
          run := run.(notes := period.notes);
        }
        return Success(Target(existing.value, run));
      }
      var run := PayrollRun(businessId, period.year, period.month, Draft, rules, period.notes, None, None);
      return Success(Target(|runs|, run));
    }

    method ReplacePayslips(runId: RunId, slips: seq<Payslip>)
      modifies this`payslips
      ensures payslips == Select(NotOfRun(runId), old(payslips)) + slips
    {
      payslips := Select(NotOfRun(runId), payslips);
      payslips := payslips + slips;
    }

    method Generate(businessId: BusinessId, period: Period, rules: PayrollRules, employees: seq<Payable>)
      returns (error: Option<Error>)
      modifies this
      ensures State() == AfterCall(old(State()), Call.Generate(businessId, period, rules, employees))
      ensures match Outcome(old(State()), Call.Generate(businessId, period, rules, employees))
              case Success(_) => error == None
              case Failure(e) => error == Some(e)
    {
      if period.month < 1 || period.month > 12 {
        return Some(MonthOutOfRange);
      }
      if rules.workingDaysPerMonth <= 0.0 {
        return Some(NoWorkingDays);
      }
      var target := ResolveRun(businessId, period, rules);
      if target.Failure? {
        return Some(target.error);
      }
      var id, run := target.value.id, target.value.run;
      if employees == [] {
        return Some(NobodyToPay);
      }
      var slips := ComputePayslips(employees, run, id, nextPayslipId, rules);
      if (id == |runs| && !(2000 <= period.year <= 2200)) || !InsertAccepted(slips) {
        return Some(DatabaseRefused);
      }
      if id == |runs| {
        runs := runs + [Some(run)];
      }
      ReplacePayslips(id, slips);
      nextPayslipId := nextPayslipId + |slips|;
      return None;
    }

    method Transition(businessId: BusinessId, id: RunId, status: Status, now: int) returns (error: Option<Error>)
      modifies this`runs, this`payslips
      ensures State() == match Moved(old(State()), businessId, id, status, now)
                         case Success(after) => after
                         case Failure(_) => old(State())
      ensures match Moved(old(State()), businessId, id, status, now)
              case Success(_) => error == None
              case Failure(e) => error == Some(e)
    {
      if !OwnsRun(runs, businessId, id) {
        return Some(RunNotFound);
      }
      var run := runs[id].value;
      match status {
        case Finalized =>
          if run.status != Draft {
            return Some(NotDraft);
          }
          if Select(OfRun(id), payslips) == [] {
            return Some(NoPayslips);
          }
          run := run.(finalizedAt := Some(now));
        case Paid =>
          if run.status != Finalized {
            return Some(NotFinalized);
          }
          run := run.(paidAt := Some(now));
        case Draft =>
      }
      run := run.(status := status);
      runs := runs[id := Some(run)];
      payslips := WithStatus(payslips, id, status);
      return None;
    }

    method Finalize(businessId: BusinessId, id: RunId, now: int) returns (error: Option<Error>)
      modifies this`runs, this`payslips
      ensures State() == AfterCall(old(State()), Call.Finalize(businessId, id, now))
      ensures match Outcome(old(State()), Call.Finalize(businessId, id, now))
              case Success(_) => error == None
              case Failure(e) => error == Some(e)
    {
      error := Transition(businessId, id, Finalized, now);
    }

    method MarkPaid(businessId: BusinessId, id: RunId, now: int) returns (error: Option<Error>)
      modifies this`runs, this`payslips
      ensures State() == AfterCall(old(State()), Call.MarkPaid(businessId, id, now))
      ensures match Outcome(old(State()), Call.MarkPaid(businessId, id, now))
              case Success(_) => error == None
              case Failure(e) => error == Some(e)
    {
      error := Transition(businessId, id, Paid, now);
    }

    /** The payslips cascade away with the run. */
    method DeleteRun(businessId: BusinessId, id: RunId) returns (error: Option<Error>)
      modifies this`runs, this`payslips
      ensures State() == AfterCall(old(State()), Call.DeleteRun(businessId, id))
      ensures match Outcome(old(State()), Call.DeleteRun(businessId, id))
              case Success(_) => error == None
              case Failure(e) => error == Some(e)
    {
      if !OwnsRun(runs, businessId, id) {
        return Some(RunNotFound);
      }
      if runs[id].value.status != Draft {
        return Some(NotDraft);
      }
      runs := runs[id := None];
      payslips := Select(NotOfRun(id), payslips);
      return None;
    }

    method AdjustPayslip(businessId: BusinessId, id: PayslipId, items: seq<Item>) returns (error: Option<Error>)
      modifies this`payslips
      ensures State() == AfterCall(old(State()), Call.AdjustPayslip(businessId, id, items))
      ensures match Outcome(old(State()), Call.AdjustPayslip(businessId, id, items))
              case Success(_) => error == None
              case Failure(e) => error == Some(e)
    {
      var at := FindPayslip(payslips, businessId, id);
      if at.None? {
        return Some(PayslipNotFound);
      }
      var slip := payslips[at.value];
      if slip.status != Draft {
        return Some(PayslipFrozen);
      }
      var earnings, deductions := 0, 0;
      for i := 0 to |items|
        invariant earnings == SumItems(items[..i], Earning)
        invariant deductions == SumItems(items[..i], Deduction)
      {
        assert items[..i + 1][..i] == items[..i];
        if items[i].kind == Earning {
          earnings := earnings + items[i].amountCents;
        } else {
          deductions := deductions + items[i].amountCents;
        }
      }
      assert items[..|items|] == items;
      var pay := Retotal(slip.pay.(bonus := earnings, otherDeduction := deductions));
      if !ItemsAccepted(items) {
        return Some(DatabaseRefused);
      }
      payslips := payslips[at.value := slip.(pay := pay, items := items)];
      return None;
    }
  }
}
