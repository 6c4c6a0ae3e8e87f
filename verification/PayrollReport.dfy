/** The payroll report (PayrollTotals in backend/internal/repository/hrm_report_repository.go and
    ToPayrollReportResponse in backend/internal/mapper/hrm_report_mapper.go): monthly totals of a
    year, and the year's totals summed from them. */
module PayrollReport {
  import opened Payroll
  import opened PayrollSafety
  import opened Wrappers

  /** The summed columns of the report. */
  datatype Column = Gross | Deductions | Net | Overtime | Bonus | EpfEmployer | Etf

  datatype Figures = Figures(
    gross: int,
    deduction: int,
    net: int,
    overtime: int,
    bonus: int,
    epfEmployer: int,
    etf: int)
  {
    function At(column: Column): int {
      match column
      case Gross => gross
      case Deductions => deduction
      case Net => net
      case Overtime => overtime
      case Bonus => bonus
      case EpfEmployer => epfEmployer
      case Etf => etf
    }
  }

  datatype MonthRow = MonthRow(month: int, employees: nat, figures: Figures)

  function Amount(column: Column, p: Payslip): int {
    match column
    case Gross => p.pay.gross
    case Deductions => p.pay.deduction
    case Net => p.pay.net
    case Overtime => p.pay.overtime
    case Bonus => p.pay.bonus
    case EpfEmployer => p.pay.epfEmployer
    case Etf => p.pay.etf
  }

  function SumOf(column: Column, payslips: seq<Payslip>): int {
    if payslips == [] then 0
    else SumOf(column, payslips[..|payslips| - 1]) + Amount(column, payslips[|payslips| - 1])
  }

  function MonthFigures(month: int, group: seq<Payslip>): MonthRow {
    MonthRow(month, |group|,
             Figures(SumOf(Gross, group), SumOf(Deductions, group), SumOf(Net, group), SumOf(Overtime, group),
                     SumOf(Bonus, group), SumOf(EpfEmployer, group), SumOf(Etf, group)))
  }

  /** GROUP BY month: a row for each of the months 1 .. last that has payslips, in order. */
  function PayrollTotals(payslips: seq<Payslip>, businessId: BusinessId, year: int, last: nat): seq<MonthRow> {
    if last == 0 then []
    else
      var group := Select(OfMonth(businessId, year, last), payslips);
      PayrollTotals(payslips, businessId, year, last - 1) + if group == [] then [] else [MonthFigures(last, group)]
  }

  function TotalOf(column: Column, rows: seq<MonthRow>): int {
    if rows == [] then 0 else TotalOf(column, rows[..|rows| - 1]) + rows[|rows| - 1].figures.At(column)
  }

  /** The mapper's loop: every column of the totals is the sum of that column of the rows. */
  method YearTotals(rows: seq<MonthRow>) returns (totals: Figures)
    ensures forall column :: totals.At(column) == TotalOf(column, rows)
  {
    totals := Figures(0, 0, 0, 0, 0, 0, 0);
    for i := 0 to |rows|
      invariant forall column :: totals.At(column) == TotalOf(column, rows[..i])
    {
      assert rows[..i + 1][..i] == rows[..i];
      var row := rows[i].figures;
      ghost var before := totals;
      totals := totals.(gross := totals.gross + row.gross);
      totals := totals.(deduction := totals.deduction + row.deduction);
      totals := totals.(net := totals.net + row.net);
      totals := totals.(overtime := totals.overtime + row.overtime);
      totals := totals.(bonus := totals.bonus + row.bonus);
      totals := totals.(epfEmployer := totals.epfEmployer + row.epfEmployer);
      totals := totals.(etf := totals.etf + row.etf);
      assert forall column :: totals.At(column) == before.At(column) + row.At(column);
    }
    assert rows[..|rows|] == rows;
  }

  /** The sum over the months 1 .. last, month by month. */
  function MonthsSum(column: Column, payslips: seq<Payslip>, businessId: BusinessId, year: int, last: nat): int {
    if last == 0 then 0
    else
      MonthsSum(column, payslips, businessId, year, last - 1) + MonthSum(column, payslips, businessId, year, last)
  }

  function MonthSum(column: Column, payslips: seq<Payslip>, businessId: BusinessId, year: int, month: int): int {
    SumOf(column, Select(OfMonth(businessId, year, month), payslips))
  }

  lemma {:induction false} RowsTotal(column: Column, payslips: seq<Payslip>, businessId: BusinessId, year: int,
                                     last: nat)
    ensures TotalOf(column, PayrollTotals(payslips, businessId, year, last))
         == MonthsSum(column, payslips, businessId, year, last)
  {
    if last > 0 {
      RowsTotal(column, payslips, businessId, year, last - 1);
      var group := Select(OfMonth(businessId, year, last), payslips);
      var before := PayrollTotals(payslips, businessId, year, last - 1);
      if group == [] {
        assert PayrollTotals(payslips, businessId, year, last) == before;
      } else {
        assert (before + [MonthFigures(last, group)])[..|before|] == before;
        assert MonthFigures(last, group).figures.At(column) == SumOf(column, group);
      }
    }
  }

  lemma SumOfLast(column: Column, where: Where, payslips: seq<Payslip>)
    requires payslips != []
    ensures var p := payslips[|payslips| - 1];
            SumOf(column, Select(where, payslips))
            == SumOf(column, Select(where, payslips[..|payslips| - 1])) + if where.Has(p) then Amount(column, p) else 0
  {
    var rest, p := payslips[..|payslips| - 1], payslips[|payslips| - 1];
    var chosen := Select(where, rest);
    if where.Has(p) {
      assert (chosen + [p])[..|chosen|] == chosen;
    } else {
      assert Select(where, payslips) == chosen;
    }
  }

  lemma MonthSumOfLast(column: Column, payslips: seq<Payslip>, businessId: BusinessId, year: int, month: int)
    requires payslips != []
    ensures var p := payslips[|payslips| - 1];
            MonthSum(column, payslips, businessId, year, month)
            == MonthSum(column, payslips[..|payslips| - 1], businessId, year, month)
               + if OfYear(businessId, year).Has(p) && p.month == month then Amount(column, p) else 0
  {
    SumOfLast(column, OfMonth(businessId, year, month), payslips);
  }

  /** A payslip counts in its own month and in no other. */
  lemma {:induction false} MonthsSumOfLast(column: Column, payslips: seq<Payslip>, businessId: BusinessId, year: int,
                                           last: nat)
    requires payslips != []
    ensures var p := payslips[|payslips| - 1];
            MonthsSum(column, payslips, businessId, year, last)
            == MonthsSum(column, payslips[..|payslips| - 1], businessId, year, last)
               + if OfYear(businessId, year).Has(p) && 1 <= p.month <= last then Amount(column, p) else 0
  {
    if last > 0 {
      MonthsSumOfLast(column, payslips, businessId, year, last - 1);
      MonthSumOfLast(column, payslips, businessId, year, last);
    }
  }

  lemma {:induction false} NoPayslipsNoSum(column: Column, businessId: BusinessId, year: int, last: nat)
    ensures MonthsSum(column, [], businessId, year, last) == 0
  {
    if last > 0 {
      NoPayslipsNoSum(column, businessId, year, last - 1);
    }
  }

  lemma {:induction false} MonthsSumIsYearSum(column: Column, payslips: seq<Payslip>, businessId: BusinessId, year: int)
    requires forall i :: 0 <= i < |payslips| ==> 1 <= payslips[i].month <= 12
    ensures MonthsSum(column, payslips, businessId, year, 12)
         == SumOf(column, Select(OfYear(businessId, year), payslips))
  {
    if payslips == [] {
      NoPayslipsNoSum(column, businessId, year, 12);
    } else {
      MonthsSumIsYearSum(column, payslips[..|payslips| - 1], businessId, year);
      MonthsSumOfLast(column, payslips, businessId, year, 12);
      SumOfLast(column, OfYear(businessId, year), payslips);
    }
  }

  /** In every reachable state each column of the report's year totals is the sum over all
      payslips of the business and the year, each counted exactly once. */
  lemma {:induction false} YearTotalsCountEveryPayslipOnce(column: Column, calls: seq<Call>, businessId: BusinessId,
                                                           year: int)
    ensures var payslips := Run(EMPTY_BOOKS, calls).payslips;
            TotalOf(column, PayrollTotals(payslips, businessId, year, 12))
            == SumOf(column, Select(OfYear(businessId, year), payslips))
  {
    var books := Run(EMPTY_BOOKS, calls);
    RunKeepsSound(EMPTY_BOOKS, calls);
    forall i | 0 <= i < |books.payslips|
      ensures 1 <= books.payslips[i].month <= 12
    {
      assert GoodPayslip(books.runs, books.nextPayslipId, books.payslips[i]);
    }
    RowsTotal(column, books.payslips, businessId, year, 12);
    MonthsSumIsYearSum(column, books.payslips, businessId, year);
  }

  // ---- what the report prints ------------------------------------------------------------------------

  /** The figures of a payslip that the report adds up. */
  function FiguresOf(p: Payslip): Figures {
    Figures(gross := p.pay.gross, deduction := p.pay.deduction, net := p.pay.net, overtime := p.pay.overtime,
            bonus := p.pay.bonus, epfEmployer := p.pay.epfEmployer, etf := p.pay.etf)
  }

  function Plus(a: Figures, b: Figures): Figures {
    Figures(gross := a.gross + b.gross, deduction := a.deduction + b.deduction, net := a.net + b.net,
            overtime := a.overtime + b.overtime, bonus := a.bonus + b.bonus,
            epfEmployer := a.epfEmployer + b.epfEmployer, etf := a.etf + b.etf)
  }

  /** The payslip is one of the business and the year, and of the month if one is given. */
  predicate Counts(p: Payslip, businessId: BusinessId, year: int, month: Option<int>) {
    p.businessId == businessId && p.year == year && (month.None? || p.month == month.value)
  }

  function SumFigures(payslips: seq<Payslip>, businessId: BusinessId, year: int, month: Option<int>): Figures {
    if payslips == [] then Figures(0, 0, 0, 0, 0, 0, 0)
    else
      var rest, p := SumFigures(payslips[..|payslips| - 1], businessId, year, month), payslips[|payslips| - 1];
      if Counts(p, businessId, year, month) then Plus(rest, FiguresOf(p)) else rest
  }

  lemma PlusByColumn(a: Figures, p: Payslip, column: Column)
    ensures Plus(a, FiguresOf(p)).At(column) == a.At(column) + Amount(column, p)
  {
  }

  lemma SameColumnsSameFigures(a: Figures, b: Figures)
    requires forall column :: a.At(column) == b.At(column)
    ensures a == b
  {
    assert a.At(Gross) == b.At(Gross) && a.At(Deductions) == b.At(Deductions) && a.At(Net) == b.At(Net);
    assert a.At(Overtime) == b.At(Overtime) && a.At(Bonus) == b.At(Bonus);
    assert a.At(EpfEmployer) == b.At(EpfEmployer) && a.At(Etf) == b.At(Etf);
  }

  /** The selection the report's queries make for it. */
  function SelectionOf(businessId: BusinessId, year: int, month: Option<int>): Where {
    if month.None? then OfYear(businessId, year) else OfMonth(businessId, year, month.value)
  }

  lemma SelectionIff(p: Payslip, businessId: BusinessId, year: int, month: Option<int>)
    ensures SelectionOf(businessId, year, month).Has(p) <==> Counts(p, businessId, year, month)
  {
  }

  lemma {:induction false} SumFiguresByColumn(payslips: seq<Payslip>, businessId: BusinessId, year: int,
                                              month: Option<int>, column: Column)
    ensures SumFigures(payslips, businessId, year, month).At(column)
         == SumOf(column, Select(SelectionOf(businessId, year, month), payslips))
  {
    if payslips != [] {
      var rest, p := payslips[..|payslips| - 1], payslips[|payslips| - 1];
      SumFiguresByColumn(rest, businessId, year, month, column);
      SelectionIff(p, businessId, year, month);
      SumOfLast(column, SelectionOf(businessId, year, month), payslips);
      PlusByColumn(SumFigures(rest, businessId, year, month), p, column);
    }
  }

  /** In every reachable state the totals of the report are, figure by figure, the sums over the
      payslips of the business and year. */
  lemma YearTotalsAre(totals: Figures, calls: seq<Call>, businessId: BusinessId, year: int)
    requires var rows := PayrollTotals(Run(EMPTY_BOOKS, calls).payslips, businessId, year, 12);
             forall column :: totals.At(column) == TotalOf(column, rows)
    ensures totals == SumFigures(Run(EMPTY_BOOKS, calls).payslips, businessId, year, None)
  {
    var payslips := Run(EMPTY_BOOKS, calls).payslips;
    forall column
      ensures totals.At(column) == SumFigures(payslips, businessId, year, None).At(column)
    {
      YearTotalsCountEveryPayslipOnce(column, calls, businessId, year);
      SumFiguresByColumn(payslips, businessId, year, None, column);
    }
    SameColumnsSameFigures(totals, SumFigures(payslips, businessId, year, None));
  }

  /** The payslips of a month, by position. */
  function CountedIn(payslips: seq<Payslip>, businessId: BusinessId, year: int, month: int): set<nat> {
    set i | 0 <= i < |payslips| && Counts(payslips[i], businessId, year, Some(month))
  }

  lemma {:induction false} GroupSize(payslips: seq<Payslip>, businessId: BusinessId, year: int, month: int)
    ensures |Select(OfMonth(businessId, year, month), payslips)| == |CountedIn(payslips, businessId, year, month)|
  {
    if payslips != [] {
      var n := |payslips| - 1;
      GroupSize(payslips[..n], businessId, year, month);
      var before, after := CountedIn(payslips[..n], businessId, year, month),
                           CountedIn(payslips, businessId, year, month);
      assert after == if Counts(payslips[n], businessId, year, Some(month)) then before + {n} else before;
    }
  }

  lemma MonthFiguresAre(payslips: seq<Payslip>, businessId: BusinessId, year: int, month: int)
    ensures MonthFigures(month, Select(OfMonth(businessId, year, month), payslips))
         == MonthRow(month, |CountedIn(payslips, businessId, year, month)|,
                     SumFigures(payslips, businessId, year, Some(month)))
  {
    var group := Select(OfMonth(businessId, year, month), payslips);
    GroupSize(payslips, businessId, year, month);
    forall column
      ensures MonthFigures(month, group).figures.At(column)
           == SumFigures(payslips, businessId, year, Some(month)).At(column)
    {
      SumFiguresByColumn(payslips, businessId, year, Some(month), column);
    }
    SameColumnsSameFigures(MonthFigures(month, group).figures, SumFigures(payslips, businessId, year, Some(month)));
  }

  lemma RowsOfLast(payslips: seq<Payslip>, businessId: BusinessId, year: int, last: nat)
    requires last > 0
    ensures var before, group := PayrollTotals(payslips, businessId, year, last - 1),
                                 Select(OfMonth(businessId, year, last), payslips);
            PayrollTotals(payslips, businessId, year, last)
            == if group == [] then before else before + [MonthFigures(last, group)]
  {
    var before := PayrollTotals(payslips, businessId, year, last - 1);
    assert before + [] == before;
  }

  lemma {:induction false} MonthsAscend(payslips: seq<Payslip>, businessId: BusinessId, year: int, last: nat)
    ensures var rows := PayrollTotals(payslips, businessId, year, last);
            && (forall i :: 0 <= i < |rows| ==> 1 <= rows[i].month <= last)
            && (forall i, k :: 0 <= i < k < |rows| ==> rows[i].month < rows[k].month)
  {
    if last > 0 {
      MonthsAscend(payslips, businessId, year, last - 1);
      RowsOfLast(payslips, businessId, year, last);
    }
  }

  predicate HasMonth(rows: seq<MonthRow>, month: int) {
    exists i :: 0 <= i < |rows| && rows[i].month == month
  }

  lemma MonthAdded(rows: seq<MonthRow>, row: MonthRow, month: int)
    ensures HasMonth(rows + [row], month) <==> HasMonth(rows, month) || month == row.month
  {
    if i :| 0 <= i < |rows| && rows[i].month == month {
      assert (rows + [row])[i].month == month;
    }
    assert (rows + [row])[|rows|] == row;
  }

  predicate IsReported(payslips: seq<Payslip>, businessId: BusinessId, year: int, month: int) {
    CountedIn(payslips, businessId, year, month) != {}
  }

  lemma ReportedIff(payslips: seq<Payslip>, businessId: BusinessId, year: int, month: int)
    ensures IsReported(payslips, businessId, year, month) <==> Select(OfMonth(businessId, year, month), payslips) != []
  {
    GroupSize(payslips, businessId, year, month);
  }

  lemma {:induction false} HasMonthIff(payslips: seq<Payslip>, businessId: BusinessId, year: int, last: nat, month: int)
    ensures HasMonth(PayrollTotals(payslips, businessId, year, last), month) <==>
            1 <= month <= last && IsReported(payslips, businessId, year, month)
  {
    if last > 0 {
      HasMonthIff(payslips, businessId, year, last - 1, month);
      RowsOfLast(payslips, businessId, year, last);
      ReportedIff(payslips, businessId, year, last);
      var group := Select(OfMonth(businessId, year, last), payslips);
      MonthAdded(PayrollTotals(payslips, businessId, year, last - 1), MonthFigures(last, group), month);
    }
  }

  /** The report has a row for exactly those months that have a payslip, in order, with the number
      of payslips of that month and the sums of their figures. */
  lemma {:induction false} MonthRowsAre(payslips: seq<Payslip>, businessId: BusinessId, year: int, last: nat)
    ensures var rows := PayrollTotals(payslips, businessId, year, last);
            && (forall i :: 0 <= i < |rows| ==>
                  && rows[i].employees == |CountedIn(payslips, businessId, year, rows[i].month)|
                  && rows[i].figures == SumFigures(payslips, businessId, year, Some(rows[i].month)))
            && (forall i, k :: 0 <= i < k < |rows| ==> rows[i].month < rows[k].month)
            && (forall month :: HasMonth(rows, month) <==>
                  1 <= month <= last && IsReported(payslips, businessId, year, month))
  {
    MonthsAscend(payslips, businessId, year, last);
    forall month
      ensures HasMonth(PayrollTotals(payslips, businessId, year, last), month) <==>
              1 <= month <= last && IsReported(payslips, businessId, year, month)
    {
      HasMonthIff(payslips, businessId, year, last, month);
    }
    if last > 0 {
      MonthRowsAre(payslips, businessId, year, last - 1);
      RowsOfLast(payslips, businessId, year, last);
      MonthFiguresAre(payslips, businessId, year, last);
    }
  }
}
