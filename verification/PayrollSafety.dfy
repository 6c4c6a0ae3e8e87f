/** What payroll guarantees over every run of calls: one run per period, payslips that move with
    their run and add up, statuses that only advance, and figures that never change once shown. */
module PayrollSafety {
  import opened Payroll
  import opened Rounding
  import opened Wrappers

  // ---- statements on the payslip table --------------------------------------------------------

  lemma {:induction false} SelectConcat(where: Where, a: seq<Payslip>, b: seq<Payslip>)
    ensures Select(where, a + b) == Select(where, a) + Select(where, b)
  {
    if b == [] {
      assert a + b == a;
      assert Select(where, a) + Select(where, b) == Select(where, a);
    } else {
      var rest := b[..|b| - 1];
      SelectConcat(where, a, rest);
      assert (a + b)[..|a + b| - 1] == a + rest;
    }
  }

  lemma SelectLast(where: Where, payslips: seq<Payslip>, p: Payslip)
    ensures Select(where, payslips + [p]) == Select(where, payslips) + if where.Has(p) then [p] else []
  {
    assert (payslips + [p])[..|payslips|] == payslips;
  }

  lemma {:induction false} SelectNone(where: Where, payslips: seq<Payslip>)
    requires forall i :: 0 <= i < |payslips| ==> !where.Has(payslips[i])
    ensures Select(where, payslips) == []
  {
    if payslips != [] {
      SelectNone(where, payslips[..|payslips| - 1]);
    }
  }

  lemma {:induction false} SelectedAreStored(where: Where, payslips: seq<Payslip>, i: nat)
    requires i < |Select(where, payslips)|
    ensures where.Has(Select(where, payslips)[i])
    ensures exists k :: 0 <= k < |payslips| && payslips[k] == Select(where, payslips)[i]
  {
    var n := |payslips| - 1;
    if i < |Select(where, payslips[..n])| {
      SelectedAreStored(where, payslips[..n], i);
      var k :| 0 <= k < n && payslips[..n][k] == Select(where, payslips)[i];
      assert payslips[k] == Select(where, payslips)[i];
    } else {
      assert payslips[n] == Select(where, payslips)[i];
    }
  }

  /** The selection holds none of a run's payslips. */
  predicate Excludes(where: Where, payslips: seq<Payslip>, runId: RunId) {
    forall i :: 0 <= i < |payslips| && payslips[i].runId == runId ==> !where.Has(payslips[i])
  }

  /** Deleting another run's payslips leaves these alone. */
  lemma {:induction false} SelectAfterDelete(where: Where, payslips: seq<Payslip>, runId: RunId)
    requires Excludes(where, payslips, runId)
    ensures Select(where, Select(NotOfRun(runId), payslips)) == Select(where, payslips)
  {
    if payslips != [] {
      var rest, last := payslips[..|payslips| - 1], payslips[|payslips| - 1];
      SelectAfterDelete(where, rest, runId);
      var kept := Select(NotOfRun(runId), rest);
      if last.runId == runId {
        assert Select(NotOfRun(runId), payslips) == kept;
        assert Select(where, payslips) == Select(where, rest);
      } else {
        assert Select(NotOfRun(runId), payslips) == kept + [last];
        SelectLast(where, kept, last);
      }
    }
  }

  lemma WithStatusSplits(payslips: seq<Payslip>, runId: RunId, status: Status)
    requires payslips != []
    ensures var n := |payslips| - 1;
            WithStatus(payslips, runId, status)[..n] == WithStatus(payslips[..n], runId, status)
  {
  }

  lemma {:induction false} SelectAfterStatus(where: Where, payslips: seq<Payslip>, runId: RunId, status: Status)
    requires Excludes(where, payslips, runId)
    ensures Select(where, WithStatus(payslips, runId, status)) == Select(where, payslips)
  {
    if payslips != [] {
      var rest, last := payslips[..|payslips| - 1], payslips[|payslips| - 1];
      var changed := WithStatus(payslips, runId, status);
      WithStatusSplits(payslips, runId, status);
      SelectAfterStatus(where, rest, runId, status);
      assert where.Has(last.(status := status)) == where.Has(last);
      assert last.runId == runId ==> !where.Has(last);
      assert Select(where, changed) == Select(where, rest) + if where.Has(last) then [last] else [];
    }
  }

  lemma {:induction false} SelectOwnAfterStatus(payslips: seq<Payslip>, runId: RunId, status: Status)
    ensures Select(OfRun(runId), WithStatus(payslips, runId, status))
         == WithStatus(Select(OfRun(runId), payslips), runId, status)
  {
    if payslips != [] {
      var n := |payslips| - 1;
      WithStatusSplits(payslips, runId, status);
      SelectOwnAfterStatus(payslips[..n], runId, status);
    }
  }

  lemma {:induction false} SelectAfterUpdate(where: Where, payslips: seq<Payslip>, at: nat, p: Payslip)
    requires at < |payslips| && !where.Has(payslips[at]) && !where.Has(p)
    ensures Select(where, payslips[at := p]) == Select(where, payslips)
  {
    var n := |payslips| - 1;
    if at == n {
      assert payslips[at := p][..n] == payslips[..n];
    } else {
      assert payslips[at := p][..n] == payslips[..n][at := p];
      SelectAfterUpdate(where, payslips[..n], at, p);
    }
  }

  // ---- the invariant ------------------------------------------------------------------------------

  /** The equations of one payslip; the ad-hoc columns are the sums of its current lines. */
  predicate AddsUp(p: Payslip) {
    && p.pay.gross == p.pay.basic + p.pay.overtime + p.pay.bonus + p.pay.allowance
    && p.pay.deduction == p.pay.absenceDeduction + p.pay.epfEmployee + p.pay.tax + p.pay.otherDeduction
    && p.pay.net >= 0
    && (p.pay.net == p.pay.gross - p.pay.deduction || (p.pay.net == 0 && p.pay.gross < p.pay.deduction))
    && p.pay.bonus == SumItems(p.items, Earning)
    && p.pay.otherDeduction == SumItems(p.items, Deduction)
  }

  /** The payslip belongs to a stored run and agrees with it. */
  predicate Follows(runs: seq<Option<PayrollRun>>, p: Payslip) {
    && HasRun(runs, p.runId)
    && var run := runs[p.runId].value;
    && p.businessId == run.businessId && p.year == run.year && p.month == run.month && p.status == run.status
  }

  predicate OnePerPeriod(runs: seq<Option<PayrollRun>>) {
    && (forall i :: 0 <= i < |runs| && runs[i].Some? ==> 1 <= runs[i].value.month <= 12)
    && (forall i, k :: 0 <= i < k < |runs| && runs[i].Some? && runs[k].Some? ==>
          !IsPeriod(runs[i].value, runs[k].value.businessId, runs[k].value.year, runs[k].value.month))
  }

  predicate Distinct(payslips: seq<Payslip>) {
    forall i, k :: 0 <= i < k < |payslips| ==>
      && payslips[i].id != payslips[k].id
      && !(payslips[i].runId == payslips[k].runId && payslips[i].employeeId == payslips[k].employeeId)
  }

  predicate GoodPayslip(runs: seq<Option<PayrollRun>>, nextPayslipId: nat, p: Payslip) {
    Follows(runs, p) && AddsUp(p) && Storable(p) && p.id < nextPayslipId
  }

  predicate AllGood(books: Books) {
    forall i :: 0 <= i < |books.payslips| ==> GoodPayslip(books.runs, books.nextPayslipId, books.payslips[i])
  }

  predicate Sound(books: Books) {
    OnePerPeriod(books.runs) && Distinct(books.payslips) && AllGood(books)
  }

  lemma ComputedAddsUp(run: PayrollRun, runId: RunId, id: PayslipId, e: Payable, rules: PayrollRules)
    requires rules.workingDaysPerMonth > 0.0
    ensures AddsUp(Computed(run, runId, id, e, rules))
  {
    var pay := ComputedPay(e, rules);
    assert pay.bonus == 0 && pay.otherDeduction == 0;
  }

  lemma {:induction false} SelectDistinct(where: Where, payslips: seq<Payslip>)
    requires Distinct(payslips)
    ensures Distinct(Select(where, payslips))
  {
    if payslips != [] {
      var n := |payslips| - 1;
      SelectDistinct(where, payslips[..n]);
      var kept := Select(where, payslips[..n]);
      forall i | 0 <= i < |kept|
        ensures kept[i].id != payslips[n].id
        ensures !(kept[i].runId == payslips[n].runId && kept[i].employeeId == payslips[n].employeeId)
      {
        SelectedAreStored(where, payslips[..n], i);
        var k :| 0 <= k < n && payslips[..n][k] == kept[i];
        assert payslips[k] == kept[i];
      }
    }
  }

  lemma RegeneratedRunsAreSound(books: Books, businessId: BusinessId, period: Period, rules: PayrollRules)
    requires OnePerPeriod(books.runs) && 1 <= period.month <= 12
    requires ResolvedRun(books, businessId, period, rules).Success?
    ensures var target := ResolvedRun(books, businessId, period, rules).value;
            OnePerPeriod(if target.id == |books.runs| then books.runs + [Some(target.run)] else books.runs)
  {
    if FindRunByPeriod(books.runs, businessId, period.year, period.month).None? {
      assert forall i :: 0 <= i < |books.runs| && books.runs[i].Some? ==> HasRun(books.runs, i);
    }
  }

  lemma ReplacementIsDistinct(kept: seq<Payslip>, slips: seq<Payslip>, runId: RunId, firstId: PayslipId)
    requires Distinct(kept) && forall i :: 0 <= i < |kept| ==> kept[i].id < firstId && kept[i].runId != runId
    requires InsertAccepted(slips)
    requires forall i :: 0 <= i < |slips| ==> slips[i].id == firstId + i && slips[i].runId == runId
    ensures Distinct(kept + slips)
  {
  }

  lemma KeptPayslipsAreGood(books: Books, id: RunId)
    requires AllGood(books)
    ensures forall i | 0 <= i < |Select(NotOfRun(id), books.payslips)| ::
              var p := Select(NotOfRun(id), books.payslips)[i];
              p.runId != id && GoodPayslip(books.runs, books.nextPayslipId, p)
  {
    forall i | 0 <= i < |Select(NotOfRun(id), books.payslips)|
      ensures var p := Select(NotOfRun(id), books.payslips)[i];
              p.runId != id && GoodPayslip(books.runs, books.nextPayslipId, p)
    {
      SelectedAreStored(NotOfRun(id), books.payslips, i);
    }
  }

  lemma GenerateKeepsSound(books: Books, businessId: BusinessId, period: Period, rules: PayrollRules,
                           employees: seq<Payable>)
    requires Sound(books) && Generated(books, businessId, period, rules, employees).Success?
    ensures Sound(Generated(books, businessId, period, rules, employees).value)
  {
    var after := Generated(books, businessId, period, rules, employees).value;
    var target := ResolvedRun(books, businessId, period, rules).value;
    var id, run := target.id, target.run;
    var slips := NewPayslips(run, id, books.nextPayslipId, employees, rules);
    var kept := Select(NotOfRun(id), books.payslips);
    RegeneratedRunsAreSound(books, businessId, period, rules);
    SelectDistinct(NotOfRun(id), books.payslips);
    KeptPayslipsAreGood(books, id);
    ReplacementIsDistinct(kept, slips, id, books.nextPayslipId);
    forall i | 0 <= i < |slips|
      ensures GoodPayslip(after.runs, after.nextPayslipId, slips[i])
    {
      ComputedAddsUp(run, id, books.nextPayslipId + i, employees[i], rules);
    }
  }

  lemma MovedPayslipIsGood(books: Books, businessId: BusinessId, id: RunId, status: Status, now: int, i: nat)
    requires AllGood(books) && Moved(books, businessId, id, status, now).Success? && i < |books.payslips|
    ensures var after := Moved(books, businessId, id, status, now).value;
            GoodPayslip(after.runs, after.nextPayslipId, after.payslips[i])
  {
    var after := Moved(books, businessId, id, status, now).value;
    var p := books.payslips[i];
    assert GoodPayslip(books.runs, books.nextPayslipId, p);
    assert after.payslips[i] == if p.runId == id then p.(status := status) else p;
    assert AddsUp(after.payslips[i]) && Storable(after.payslips[i]);
  }

  lemma MoveKeepsPeriods(books: Books, businessId: BusinessId, id: RunId, status: Status, now: int)
    requires OnePerPeriod(books.runs) && Moved(books, businessId, id, status, now).Success?
    ensures OnePerPeriod(Moved(books, businessId, id, status, now).value.runs)
  {
  }

  lemma StatusKeepsDistinct(payslips: seq<Payslip>, runId: RunId, status: Status)
    requires Distinct(payslips)
    ensures Distinct(WithStatus(payslips, runId, status))
  {
  }

  lemma MoveKeepsSound(books: Books, businessId: BusinessId, id: RunId, status: Status, now: int)
    requires Sound(books) && Moved(books, businessId, id, status, now).Success?
    ensures Sound(Moved(books, businessId, id, status, now).value)
  {
    var after := Moved(books, businessId, id, status, now).value;
    MoveKeepsPeriods(books, businessId, id, status, now);
    StatusKeepsDistinct(books.payslips, id, status);
    forall i | 0 <= i < |after.payslips|
      ensures GoodPayslip(after.runs, after.nextPayslipId, after.payslips[i])
    {
      MovedPayslipIsGood(books, businessId, id, status, now, i);
    }
  }

  lemma DeleteKeepsSound(books: Books, businessId: BusinessId, id: RunId)
    requires Sound(books) && Deleted(books, businessId, id).Success?
    ensures Sound(Deleted(books, businessId, id).value)
  {
    var after := Deleted(books, businessId, id).value;
    SelectDistinct(NotOfRun(id), books.payslips);
    forall i | 0 <= i < |after.payslips|
      ensures GoodPayslip(after.runs, after.nextPayslipId, after.payslips[i])
    {
      SelectedAreStored(NotOfRun(id), books.payslips, i);
    }
  }

  lemma {:induction false} SumsAreNonNegative(items: seq<Item>, kind: Kind)
    requires ItemsAccepted(items)
    ensures SumItems(items, kind) >= 0
  {
    if items != [] {
      SumsAreNonNegative(items[..|items| - 1], kind);
    }
  }

  lemma AdjustKeepsSound(books: Books, businessId: BusinessId, id: PayslipId, items: seq<Item>)
    requires Sound(books) && WithAdjustment(books, businessId, id, items).Success?
    ensures Sound(WithAdjustment(books, businessId, id, items).value)
  {
    SumsAreNonNegative(items, Earning);
    SumsAreNonNegative(items, Deduction);
  }

  lemma CallKeepsSound(books: Books, call: Call)
    requires Sound(books)
    ensures Sound(AfterCall(books, call))
  {
    if Outcome(books, call).Success? {
      match call
      case Generate(b, period, rules, employees) => GenerateKeepsSound(books, b, period, rules, employees);
      case Finalize(b, id, now) => MoveKeepsSound(books, b, id, Finalized, now);
      case MarkPaid(b, id, now) => MoveKeepsSound(books, b, id, Paid, now);
      case DeleteRun(b, id) => DeleteKeepsSound(books, b, id);
      case AdjustPayslip(b, id, items) => AdjustKeepsSound(books, b, id, items);
    }
  }

  lemma {:induction false} RunKeepsSound(books: Books, calls: seq<Call>)
    requires Sound(books)
    ensures Sound(Run(books, calls))
  {
    if calls != [] {
      RunKeepsSound(books, calls[..|calls| - 1]);
      CallKeepsSound(Run(books, calls[..|calls| - 1]), calls[|calls| - 1]);
    }
  }

  /** Every reachable payslip adds up and has the status and period of its run. */
  lemma {:induction false} ReachablePayslipsAddUp(calls: seq<Call>, i: nat)
    requires i < |Run(EMPTY_BOOKS, calls).payslips|
    ensures var books := Run(EMPTY_BOOKS, calls);
            AddsUp(books.payslips[i]) && Follows(books.runs, books.payslips[i])
  {
    RunKeepsSound(EMPTY_BOOKS, calls);
    var books := Run(EMPTY_BOOKS, calls);
    assert GoodPayslip(books.runs, books.nextPayslipId, books.payslips[i]);
  }

  /** A business never has two runs for a month, nor two payslips for an employee in a run. */
  lemma OneRunPerPeriod(calls: seq<Call>, i: RunId, k: RunId)
    requires HasRun(Run(EMPTY_BOOKS, calls).runs, i) && HasRun(Run(EMPTY_BOOKS, calls).runs, k) && i != k
    ensures var runs := Run(EMPTY_BOOKS, calls).runs;
            !IsPeriod(runs[i].value, runs[k].value.businessId, runs[k].value.year, runs[k].value.month)
    ensures Distinct(Run(EMPTY_BOOKS, calls).payslips)
  {
    RunKeepsSound(EMPTY_BOOKS, calls);
    assert i < k || k < i;
  }

  // ---- what a call leaves alone ---------------------------------------------------------------------

  /** The run a successful call writes to. */
  function Touched(books: Books, call: Call): RunId {
    match call
    case Generate(b, period, rules, _) =>
      (match ResolvedRun(books, b, period, rules)
       case Success(target) => target.id
       case Failure(_) => 0)
    case Finalize(_, id, _) => id
    case MarkPaid(_, id, _) => id
    case DeleteRun(_, id) => id
    case AdjustPayslip(b, id, _) =>
      match FindPayslip(books.payslips, b, id)
      case Some(at) => books.payslips[at].runId
      case None => 0
  }

  /** The selection holds no payslip of that run of that business. */
  predicate Apart(where: Where, runId: RunId, businessId: BusinessId) {
    match where
    case OfRun(r) => r != runId
    case OfBusiness(b) => b != businessId
    case _ => false
  }

  lemma TouchedIsOwn(where: Where, books: Books, call: Call)
    requires Sound(books) && Outcome(books, call).Success?
    requires Apart(where, Touched(books, call), call.businessId)
    ensures Excludes(where, books.payslips, Touched(books, call))
  {
    var id := Touched(books, call);
    if call.AdjustPayslip? {
      var at := FindPayslip(books.payslips, call.businessId, call.payslipId).value;
      assert GoodPayslip(books.runs, books.nextPayslipId, books.payslips[at]);
    }
    forall i | 0 <= i < |books.payslips| && books.payslips[i].runId == id
      ensures !where.Has(books.payslips[i])
    {
      assert GoodPayslip(books.runs, books.nextPayslipId, books.payslips[i]);
    }
  }

  lemma GenerateLeavesOthers(where: Where, books: Books, call: Call)
    requires call.Generate? && Outcome(books, call).Success?
    requires Apart(where, Touched(books, call), call.businessId)
    requires Excludes(where, books.payslips, Touched(books, call))
    ensures Select(where, AfterCall(books, call).payslips) == Select(where, books.payslips)
  {
    var id := Touched(books, call);
    var run := ResolvedRun(books, call.businessId, call.period, call.rules).value.run;
    var slips := NewPayslips(run, id, books.nextPayslipId, call.employees, call.rules);
    SelectNone(where, slips);
    SelectAfterDelete(where, books.payslips, id);
    SelectConcat(where, Select(NotOfRun(id), books.payslips), slips);
  }

  lemma AdjustLeavesOthers(where: Where, books: Books, call: Call)
    requires call.AdjustPayslip? && Outcome(books, call).Success?
    requires !where.Has(books.payslips[FindPayslip(books.payslips, call.businessId, call.payslipId).value])
    ensures Select(where, AfterCall(books, call).payslips) == Select(where, books.payslips)
  {
    var at := FindPayslip(books.payslips, call.businessId, call.payslipId).value;
    var p := Adjusted(books.payslips[at], call.items);
    assert where.Has(p) == where.Has(books.payslips[at]);
    SelectAfterUpdate(where, books.payslips, at, p);
  }

  lemma CallLeavesOthers(where: Where, books: Books, call: Call)
    requires Sound(books) && Outcome(books, call).Success?
    requires Apart(where, Touched(books, call), call.businessId)
    ensures Select(where, AfterCall(books, call).payslips) == Select(where, books.payslips)
  {
    TouchedIsOwn(where, books, call);
    var id := Touched(books, call);
    match call
    case Generate(_, _, _, _) => GenerateLeavesOthers(where, books, call);
    case Finalize(_, _, _) => SelectAfterStatus(where, books.payslips, id, Finalized);
    case MarkPaid(_, _, _) => SelectAfterStatus(where, books.payslips, id, Paid);
    case DeleteRun(_, _) => SelectAfterDelete(where, books.payslips, id);
    case AdjustPayslip(_, _, _) => AdjustLeavesOthers(where, books, call);
  }

  lemma CallLeavesOtherRuns(books: Books, call: Call, businessId: BusinessId)
    requires call.businessId != businessId
    ensures RunsKept(books.runs, AfterCall(books, call).runs, businessId)
  {
  }

  /** The business has the runs it had, unchanged. */
  ghost predicate RunsKept(before: seq<Option<PayrollRun>>, after: seq<Option<PayrollRun>>, businessId: BusinessId) {
    && |before| <= |after|
    && (forall id: RunId :: OwnsRun(before, businessId, id) ==> after[id] == before[id])
    && (forall id: RunId :: OwnsRun(after, businessId, id) ==> OwnsRun(before, businessId, id))
  }

  /** Calls of other businesses change neither a business's payslips nor its runs. */
  lemma {:induction false} OtherBusinessesUntouched(books: Books, calls: seq<Call>, businessId: BusinessId)
    requires Sound(books)
    requires forall call | call in calls :: call.businessId != businessId
    ensures var after := Run(books, calls);
            && Select(OfBusiness(businessId), after.payslips) == Select(OfBusiness(businessId), books.payslips)
            && RunsKept(books.runs, after.runs, businessId)
  {
    if calls != [] {
      var before := calls[..|calls| - 1];
      OtherBusinessesUntouched(books, before, businessId);
      RunKeepsSound(books, before);
      var middle, call := Run(books, before), calls[|calls| - 1];
      CallLeavesOtherRuns(middle, call, businessId);
      if Outcome(middle, call).Success? {
        CallLeavesOthers(OfBusiness(businessId), middle, call);
      }
    }
  }

  // ---- the one-way freeze ---------------------------------------------------------------------------

  function Rank(status: Status): nat {
    match status
    case Draft => 0
    case Finalized => 1
    case Paid => 2
  }

  predicate SameRun(a: PayrollRun, b: PayrollRun) {
    && a.businessId == b.businessId && a.year == b.year && a.month == b.month
    && a.rules == b.rules && a.notes == b.notes
  }

  /** A run only moves draft, finalized, paid, and keeps the rules and notes it was created with.
      Only a draft can disappear, and once gone it stays gone. */
  lemma {:induction false} StatusesOnlyAdvance(books: Books, calls: seq<Call>, id: RunId)
    requires id < |books.runs|
    ensures id < |Run(books, calls).runs|
    ensures var before, after := books.runs[id], Run(books, calls).runs[id];
            && (before.None? ==> after.None?)
            && (before.Some? && after.None? ==> before.value.status == Draft)
            && (before.Some? && after.Some? ==>
                  SameRun(before.value, after.value) && Rank(before.value.status) <= Rank(after.value.status))
  {
    if calls != [] {
      StatusesOnlyAdvance(books, calls[..|calls| - 1], id);
      CallAdvances(Run(books, calls[..|calls| - 1]), calls[|calls| - 1], id);
    }
  }

  lemma CallAdvances(books: Books, call: Call, id: RunId)
    requires id < |books.runs|
    ensures id < |AfterCall(books, call).runs|
    ensures var before, after := books.runs[id], AfterCall(books, call).runs[id];
            && (before.None? ==> after.None?)
            && (before.Some? && after.None? ==> before.value.status == Draft)
            && (before.Some? && after.Some? ==>
                  SameRun(before.value, after.value) && Rank(before.value.status) <= Rank(after.value.status))
  {
  }

  /** A run's payslips as they stand once the run has this status. */
  function FrozenAs(payslips: seq<Payslip>, runId: RunId, status: Status): seq<Payslip> {
    WithStatus(Select(OfRun(runId), payslips), runId, status)
  }

  /** A run that is no longer a draft is written to only by marking it paid. */
  lemma FrozenIsUntouched(books: Books, call: Call, id: RunId)
    requires Sound(books) && HasRun(books.runs, id) && books.runs[id].value.status != Draft
    requires Outcome(books, call).Success? && !(call.MarkPaid? && call.id == id)
    ensures Touched(books, call) != id
  {
    if call.AdjustPayslip? {
      var at := FindPayslip(books.payslips, call.businessId, call.payslipId).value;
      assert GoodPayslip(books.runs, books.nextPayslipId, books.payslips[at]);
    }
  }

  lemma FrozenByCall(books: Books, call: Call, id: RunId)
    requires Sound(books) && HasRun(books.runs, id) && books.runs[id].value.status != Draft
    ensures var after := AfterCall(books, call);
            && HasRun(after.runs, id)
            && Select(OfRun(id), after.payslips) == FrozenAs(books.payslips, id, after.runs[id].value.status)
  {
    OwnPayslipsFollow(books, id);
    if Outcome(books, call).Success? {
      if call.MarkPaid? && call.id == id {
        SelectOwnAfterStatus(books.payslips, id, Paid);
      } else {
        FrozenIsUntouched(books, call, id);
        CallAdvances(books, call, id);
        CallLeavesOthers(OfRun(id), books, call);
      }
    }
  }

  lemma OwnPayslipsFollow(books: Books, id: RunId)
    requires Sound(books) && HasRun(books.runs, id)
    ensures Select(OfRun(id), books.payslips) == FrozenAs(books.payslips, id, books.runs[id].value.status)
  {
    var own := Select(OfRun(id), books.payslips);
    forall i | 0 <= i < |own|
      ensures own[i].status == books.runs[id].value.status
    {
      SelectedAreStored(OfRun(id), books.payslips, i);
      var k :| 0 <= k < |books.payslips| && books.payslips[k] == own[i];
      assert GoodPayslip(books.runs, books.nextPayslipId, books.payslips[k]);
    }
    assert own == FrozenAs(books.payslips, id, books.runs[id].value.status);
  }

  /** Once a run is finalised, no sequence of calls changes any of its payslips: the same
      employees, money, day counts and lines, in the same order; only the status follows the run. */
  lemma {:induction false} FinalizedPayslipsNeverChange(books: Books, calls: seq<Call>, id: RunId)
    requires Sound(books) && HasRun(books.runs, id) && books.runs[id].value.status != Draft
    ensures var after := Run(books, calls);
            && HasRun(after.runs, id)
            && Select(OfRun(id), after.payslips) == FrozenAs(books.payslips, id, after.runs[id].value.status)
  {
    OwnPayslipsFollow(books, id);
    if calls != [] {
      var before := calls[..|calls| - 1];
      FinalizedPayslipsNeverChange(books, before, id);
      StatusesOnlyAdvance(books, before, id);
      RunKeepsSound(books, before);
      var middle, call := Run(books, before), calls[|calls| - 1];
      FrozenByCall(middle, call, id);
      var after := AfterCall(middle, call);
      assert FrozenAs(middle.payslips, id, after.runs[id].value.status)
          == FrozenAs(books.payslips, id, after.runs[id].value.status);
    }
  }

  // ---- regeneration --------------------------------------------------------------------------------

  /** Regenerating a draft leaves nothing of the last set behind: the run then has exactly the
      payslips just computed, one for each employee given, with no ad-hoc lines. */
  lemma {:induction false} GenerateReplacesWholesale(books: Books, businessId: BusinessId, period: Period,
                                                     rules: PayrollRules, employees: seq<Payable>)
    requires Generated(books, businessId, period, rules, employees).Success?
    ensures var target := ResolvedRun(books, businessId, period, rules).value;
            Select(OfRun(target.id), Generated(books, businessId, period, rules, employees).value.payslips)
            == NewPayslips(target.run, target.id, books.nextPayslipId, employees, rules)
  {
    var target := ResolvedRun(books, businessId, period, rules).value;
    SelectReplaced(books.payslips, target.id,
                   NewPayslips(target.run, target.id, books.nextPayslipId, employees, rules));
  }

  lemma SelectReplaced(payslips: seq<Payslip>, runId: RunId, slips: seq<Payslip>)
    requires forall i :: 0 <= i < |slips| ==> slips[i].runId == runId
    ensures Select(OfRun(runId), Select(NotOfRun(runId), payslips) + slips) == slips
  {
    var kept := Select(NotOfRun(runId), payslips);
    forall i | 0 <= i < |kept|
      ensures kept[i].runId != runId
    {
      SelectedAreStored(NotOfRun(runId), payslips, i);
    }
    SelectNone(OfRun(runId), kept);
    SelectAll(OfRun(runId), slips);
    SelectConcat(OfRun(runId), kept, slips);
  }

  /** The rules stored with a run are those its payslips were computed under exactly when they
      are those of the latest generation: regenerating a draft under other rules leaves the
      first snapshot in place. */
  lemma SnapshotIsCurrentIff(books: Books, businessId: BusinessId, period: Period, rules: PayrollRules,
                             employees: seq<Payable>)
    requires Generated(books, businessId, period, rules, employees).Success?
    ensures var id := ResolvedRun(books, businessId, period, rules).value.id;
            var after := Generated(books, businessId, period, rules, employees).value;
            && HasRun(after.runs, id)
            && (after.runs[id].value.rules == rules <==>
                  id == |books.runs| || (HasRun(books.runs, id) && books.runs[id].value.rules == rules))
  {
    var found := FindRunByPeriod(books.runs, businessId, period.year, period.month);
    assert found.Some? ==> HasRun(books.runs, found.value);
  }

  lemma {:induction false} SelectAll(where: Where, payslips: seq<Payslip>)
    requires forall i :: 0 <= i < |payslips| ==> where.Has(payslips[i])
    ensures Select(where, payslips) == payslips
  {
    if payslips != [] {
      SelectAll(where, payslips[..|payslips| - 1]);
    }
  }

  // ---- a transition cut in half ------------------------------------------------------------------------

  /** The run's status is written outside the transaction that moves the payslips, so when the
      payslip statement fails only the run has moved. */
  function HalfMoved(books: Books, businessId: BusinessId, id: RunId, status: Status, now: int): Books
    requires Moved(books, businessId, id, status, now).Success?
  {
    books.(runs := Moved(books, businessId, id, status, now).value.runs)
  }

  /** A half finalisation always breaks the freeze: the run is finalized, yet each of its
      payslips can still be adjusted. */
  lemma {:induction false} HalfFinalizedStillAdjustable(books: Books, businessId: BusinessId, id: RunId, now: int,
                                                        i: nat, items: seq<Item>)
    requires Sound(books) && Moved(books, businessId, id, Finalized, now).Success?
    requires i < |books.payslips| && books.payslips[i].runId == id
    requires ItemsAccepted(items)
    ensures var half := HalfMoved(books, businessId, id, Finalized, now);
            && half.runs[id].value.status == Finalized
            && WithAdjustment(half, businessId, books.payslips[i].id, items).Success?
            && !Sound(half)
  {
    var half := HalfMoved(books, businessId, id, Finalized, now);
    assert GoodPayslip(books.runs, books.nextPayslipId, books.payslips[i]);
    assert FindPayslip(half.payslips, businessId, books.payslips[i].id).Some?;
    assert !Follows(half.runs, half.payslips[i]);
  }

  lemma HalfMoveOfNone(books: Books, businessId: BusinessId, id: RunId, status: Status, now: int)
    requires Sound(books) && Moved(books, businessId, id, status, now).Success?
    requires Select(OfRun(id), books.payslips) == []
    ensures Sound(HalfMoved(books, businessId, id, status, now))
  {
    var half := HalfMoved(books, businessId, id, status, now);
    MoveKeepsPeriods(books, businessId, id, status, now);
    forall i | 0 <= i < |half.payslips|
      ensures GoodPayslip(half.runs, half.nextPayslipId, half.payslips[i])
    {
      assert GoodPayslip(books.runs, books.nextPayslipId, books.payslips[i]);
      if books.payslips[i].runId == id {
        SelectedIfHas(OfRun(id), books.payslips, i);
        assert false;
      }
    }
  }

  lemma HalfMoveOfSome(books: Books, businessId: BusinessId, id: RunId, status: Status, now: int)
    requires Sound(books) && Moved(books, businessId, id, status, now).Success?
    requires status != books.runs[id].value.status && Select(OfRun(id), books.payslips) != []
    ensures !AllGood(HalfMoved(books, businessId, id, status, now))
  {
    var half, own := HalfMoved(books, businessId, id, status, now), Select(OfRun(id), books.payslips);
    SelectedAreStored(OfRun(id), books.payslips, 0);
    var k :| 0 <= k < |books.payslips| && books.payslips[k] == own[0];
    assert GoodPayslip(books.runs, books.nextPayslipId, books.payslips[k]);
    assert !Follows(half.runs, half.payslips[k]);
  }

  /** The half-moved books are sound exactly when the run has no payslips. */
  lemma HalfMoveIsSoundIff(books: Books, businessId: BusinessId, id: RunId, status: Status, now: int)
    requires Sound(books) && Moved(books, businessId, id, status, now).Success?
    requires status != books.runs[id].value.status
    ensures Sound(HalfMoved(books, businessId, id, status, now)) <==> Select(OfRun(id), books.payslips) == []
  {
    if Select(OfRun(id), books.payslips) == [] {
      HalfMoveOfNone(books, businessId, id, status, now);
    } else {
      HalfMoveOfSome(books, businessId, id, status, now);
    }
  }

  lemma {:induction false} SelectedIfHas(where: Where, payslips: seq<Payslip>, i: nat)
    requires i < |payslips| && where.Has(payslips[i])
    ensures Select(where, payslips) != []
  {
    var n := |payslips| - 1;
    if i < n {
      SelectedIfHas(where, payslips[..n], i);
    }
  }

  /** Every run has a payslip. */
  predicate Peopled(books: Books) {
    forall id | 0 <= id < |books.runs| && books.runs[id].Some? :: Select(OfRun(id), books.payslips) != []
  }

  lemma GeneratedIsPeopled(books: Books, businessId: BusinessId, period: Period, rules: PayrollRules,
                           employees: seq<Payable>)
    requires Generated(books, businessId, period, rules, employees).Success?
    ensures var id := ResolvedRun(books, businessId, period, rules).value.id;
            Select(OfRun(id), Generated(books, businessId, period, rules, employees).value.payslips) != []
  {
    GenerateReplacesWholesale(books, businessId, period, rules, employees);
  }

  lemma MovedIsPeopled(books: Books, businessId: BusinessId, id: RunId, status: Status, now: int)
    requires Peopled(books) && Moved(books, businessId, id, status, now).Success?
    ensures Select(OfRun(id), Moved(books, businessId, id, status, now).value.payslips) != []
  {
    SelectOwnAfterStatus(books.payslips, id, status);
  }

  lemma TouchedIsPeopled(books: Books, call: Call)
    requires Sound(books) && Peopled(books) && Outcome(books, call).Success? && !call.DeleteRun?
    ensures Select(OfRun(Touched(books, call)), AfterCall(books, call).payslips) != []
  {
    var id, after := Touched(books, call), AfterCall(books, call);
    match call
    case Generate(b, period, rules, employees) => GeneratedIsPeopled(books, b, period, rules, employees);
    case Finalize(b, _, now) => MovedIsPeopled(books, b, id, Finalized, now);
    case MarkPaid(b, _, now) => MovedIsPeopled(books, b, id, Paid, now);
    case AdjustPayslip(b, payslipId, _) =>
      SelectedIfHas(OfRun(id), after.payslips, FindPayslip(books.payslips, b, payslipId).value);
  }

  lemma CallKeepsPeopled(books: Books, call: Call)
    requires Sound(books) && Peopled(books)
    ensures Peopled(AfterCall(books, call))
  {
    if Outcome(books, call).Success? {
      var after := AfterCall(books, call);
      forall id | 0 <= id < |after.runs| && after.runs[id].Some?
        ensures Select(OfRun(id), after.payslips) != []
      {
        if id == Touched(books, call) {
          TouchedIsPeopled(books, call);
        } else {
          assert HasRun(books.runs, id);
          CallLeavesOthers(OfRun(id), books, call);
        }
      }
    }
  }

  lemma {:induction false} RunKeepsPeopled(calls: seq<Call>)
    ensures Peopled(Run(EMPTY_BOOKS, calls))
  {
    if calls != [] {
      var before := calls[..|calls| - 1];
      RunKeepsPeopled(before);
      RunKeepsSound(EMPTY_BOOKS, before);
      CallKeepsPeopled(Run(EMPTY_BOOKS, before), calls[|calls| - 1]);
    }
  }

  /** In reachable books every run has payslips, so there each half transition breaks the books. */
  lemma ReachableHalfMoveIsUnsound(calls: seq<Call>, businessId: BusinessId, id: RunId, status: Status, now: int)
    requires status == Finalized || status == Paid
    requires Moved(Run(EMPTY_BOOKS, calls), businessId, id, status, now).Success?
    ensures !Sound(HalfMoved(Run(EMPTY_BOOKS, calls), businessId, id, status, now))
  {
    RunKeepsSound(EMPTY_BOOKS, calls);
    RunKeepsPeopled(calls);
    HalfMoveIsSoundIff(Run(EMPTY_BOOKS, calls), businessId, id, status, now);
  }

  // ---- adjustments -----------------------------------------------------------------------------------

  /** An adjustment replaces earlier ones entirely: only the last set of lines counts, and the
      computed lines are never touched. */
  lemma AdjustmentsAbsorb(books: Books, businessId: BusinessId, id: PayslipId, first: seq<Item>, second: seq<Item>)
    requires WithAdjustment(books, businessId, id, first).Success?
    ensures var once := WithAdjustment(books, businessId, id, first).value;
            WithAdjustment(once, businessId, id, second) == WithAdjustment(books, businessId, id, second)
  {
    var once := WithAdjustment(books, businessId, id, first).value;
    var at := FindPayslip(books.payslips, businessId, id).value;
    SameIdsFound(books.payslips, once.payslips, businessId, id);
    assert books.payslips[at := Adjusted(books.payslips[at], first)][at := Adjusted(books.payslips[at], second)]
        == books.payslips[at := Adjusted(books.payslips[at], second)];
  }

  lemma {:induction false} SameIdsFound(a: seq<Payslip>, b: seq<Payslip>, businessId: BusinessId, id: PayslipId)
    requires |a| == |b|
    requires forall i :: 0 <= i < |a| ==> a[i].id == b[i].id && a[i].businessId == b[i].businessId
    ensures FindPayslip(a, businessId, id) == FindPayslip(b, businessId, id)
  {
    if a != [] {
      SameIdsFound(a[..|a| - 1], b[..|b| - 1], businessId, id);
    }
  }

  // ---- what the rates mean -----------------------------------------------------------------------------

  /** Cross-multiplied: the absence line is the salary's share of the month's working days, the
      overtime line its share of the month's working minutes times the multiplier. */
  lemma LinesAreShares(e: Payable, rules: PayrollRules)
    requires rules.workingDaysPerMonth > 0.0
    ensures AbsencePay(e, rules) * rules.workingDaysPerMonth == e.basicSalaryCents as real * UnpaidDays(e, rules)
    ensures PaysOvertime(e, rules) ==>
              OvertimePay(e, rules) * (rules.workingDaysPerMonth * rules.workingHoursPerDay) * 60.0
              == e.basicSalaryCents as real * e.overtimeMinutes as real * rules.overtimeMultiplier
  {
    var basic, monthDays := e.basicSalaryCents as real, rules.workingDaysPerMonth;
    DivideBack(basic, monthDays, UnpaidDays(e, rules));
    if PaysOvertime(e, rules) {
      var monthHours := monthDays * rules.workingHoursPerDay;
      assert monthHours > 0.0;
      DivideTwiceBack(basic, monthHours, 60.0, e.overtimeMinutes as real * rules.overtimeMultiplier);
      assert OvertimePay(e, rules)
          == basic / monthHours / 60.0 * (e.overtimeMinutes as real * rules.overtimeMultiplier);
    }
  }

  lemma DivideBack(amount: real, whole: real, part: real)
    requires whole > 0.0
    ensures amount / whole * part * whole == amount * part
  {
    var rate := amount / whole;
    assert rate * whole == amount;
    assert rate * part * whole == (rate * whole) * part;
  }

  lemma DivideTwiceBack(amount: real, whole: real, unit: real, part: real)
    requires whole > 0.0 && unit > 0.0
    ensures amount / whole / unit * part * whole * unit == amount * part
  {
    var rate := amount / whole;
    DivideBack(rate, unit, part * whole);
    DivideBack(amount, whole, part);
    assert rate / unit * (part * whole) == rate / unit * part * whole;
    assert rate * (part * whole) == rate * part * whole;
  }

  /** A month of nothing but unpaid days costs the whole salary, and pays for no days. */
  lemma FullyUnpaidMonth(e: Payable, rules: PayrollRules)
    requires rules.workingDaysPerMonth > 0.0 && UnpaidDays(e, rules) == rules.workingDaysPerMonth
    ensures ComputedPay(e, rules).absenceDeduction == e.basicSalaryCents
    ensures ComputedDays(e, rules).payable == 0.0
  {
    var basic := e.basicSalaryCents;
    DivideBack(basic as real, rules.workingDaysPerMonth, 1.0);
    assert AbsencePay(e, rules) == basic as real;
    RoundHalfAwayOfInt(basic);
    RoundHalfAwayOfInt(0);
  }

  // ---- rounding -----------------------------------------------------------------------------------------

  /** A statutory line before rounding. */
  function Share(cents: int, percent: real): real {
    if percent <= 0.0 then 0.0 else cents as real * percent / 100.0
  }

  function FloorAtZero(amount: real): real {
    if amount < 0.0 then 0.0 else amount
  }

  /** The take-home pay with no rounding anywhere. */
  function ExactNet(e: Payable, rules: PayrollRules): real
    requires rules.workingDaysPerMonth > 0.0
  {
    var basic := e.basicSalaryCents;
    FloorAtZero(basic as real + OvertimePay(e, rules) - AbsencePay(e, rules)
                - Share(basic, rules.epfEmployeePercent) - Share(basic, rules.taxPercent))
  }

  lemma PercentNear(cents: int, percent: real)
    ensures -0.5 <= PercentOf(cents, percent) as real - Share(cents, percent) <= 0.5
  {
    if percent > 0.0 {
      RoundHalfAwayNear(cents as real * percent / 100.0);
    }
  }

  lemma NetNear(basic: int, lines: (int, int, int, int), exact: (real, real, real, real), net: int, exactNet: real)
    requires -0.5 <= lines.0 as real - exact.0 <= 0.5 && -0.5 <= lines.1 as real - exact.1 <= 0.5
    requires -0.5 <= lines.2 as real - exact.2 <= 0.5 && -0.5 <= lines.3 as real - exact.3 <= 0.5
    requires var gross, deduction := basic + lines.0, lines.1 + lines.2 + lines.3;
             net == if gross < deduction then 0 else gross - deduction
    requires exactNet == FloorAtZero(basic as real + exact.0 - exact.1 - exact.2 - exact.3)
    ensures -2.0 <= net as real - exactNet <= 2.0
  {
  }

  /** Four lines are rounded one by one; a fresh payslip is within two cents of the exact pay. */
  lemma FreshNetWithinTwoCents(e: Payable, rules: PayrollRules)
    requires rules.workingDaysPerMonth > 0.0
    ensures -2.0 <= ComputedPay(e, rules).net as real - ExactNet(e, rules) <= 2.0
  {
    var basic, pay := e.basicSalaryCents, ComputedPay(e, rules);
    RoundHalfAwayNear(OvertimePay(e, rules));
    RoundHalfAwayNear(AbsencePay(e, rules));
    PercentNear(basic, rules.epfEmployeePercent);
    PercentNear(basic, rules.taxPercent);
    NetNear(basic, (pay.overtime, pay.absenceDeduction, pay.epfEmployee, pay.tax),
            (OvertimePay(e, rules), AbsencePay(e, rules),
             Share(basic, rules.epfEmployeePercent), Share(basic, rules.taxPercent)),
            pay.net, ExactNet(e, rules));
  }

  // ---- what a payslip prints ------------------------------------------------------------------------

  /** A share of the salary in cents: none without a rate, else rounded halves away from zero. */
  predicate IsShare(cents: int, basic: int, percent: real) {
    cents == if percent > 0.0 then RoundHalfAway(basic as real * percent / 100.0) else 0
  }

  lemma ShareIs(cents: int, percent: real)
    ensures IsShare(PercentOf(cents, percent), cents, percent)
  {
  }

  lemma RetotalledLines(p: Pay)
    requires p.bonus == p.allowance == p.otherDeduction == 0
    ensures Retotalled(p) == p.(gross := Retotalled(p).gross, deduction := Retotalled(p).deduction,
                                net := Retotalled(p).net)
    ensures var pay := Retotalled(p);
            && pay.gross == pay.basic + pay.overtime
            && pay.deduction == pay.absenceDeduction + pay.epfEmployee + pay.tax
            && pay.net == if pay.gross >= pay.deduction then pay.gross - pay.deduction else 0
  {
  }

  /** Every line of a fresh payslip is its own: overtime at the hourly rate, the absence line at the
      daily rate for the days that are deducted, each statutory share at its own rate, no ad-hoc
      amounts. The employer's share and the fund contribution are printed and not deducted. */
  lemma FreshLines(e: Payable, rules: PayrollRules)
    requires rules.workingDaysPerMonth > 0.0
    ensures var pay := ComputedPay(e, rules);
            && pay.basic == e.basicSalaryCents
            && pay.bonus == pay.allowance == pay.otherDeduction == 0
            && IsShare(pay.epfEmployee, pay.basic, rules.epfEmployeePercent)
            && IsShare(pay.epfEmployer, pay.basic, rules.epfEmployerPercent)
            && IsShare(pay.etf, pay.basic, rules.etfPercent)
            && IsShare(pay.tax, pay.basic, rules.taxPercent)
            && pay.absenceDeduction == RoundHalfAway(AbsencePay(e, rules))
            && pay.overtime == RoundHalfAway(OvertimePay(e, rules))
            && pay.gross == pay.basic + pay.overtime
            && pay.deduction == pay.absenceDeduction + pay.epfEmployee + pay.tax
            && pay.net == if pay.gross >= pay.deduction then pay.gross - pay.deduction else 0
  {
    var basic := e.basicSalaryCents;
    ShareIs(basic, rules.epfEmployeePercent);
    ShareIs(basic, rules.epfEmployerPercent);
    ShareIs(basic, rules.etfPercent);
    ShareIs(basic, rules.taxPercent);
    var overtime, absence := RoundHalfAway(OvertimePay(e, rules)), RoundHalfAway(AbsencePay(e, rules));
    RetotalledLines(Pay(basic, overtime, 0, 0, absence, PercentOf(basic, rules.epfEmployeePercent),
                        PercentOf(basic, rules.epfEmployerPercent), PercentOf(basic, rules.etfPercent),
                        PercentOf(basic, rules.taxPercent), 0, 0, 0, 0));
  }

  /** Which days are deducted, and when overtime is paid at all. */
  lemma WhatIsDeducted(e: Payable, rules: PayrollRules)
    requires rules.workingDaysPerMonth > 0.0
    ensures UnpaidDays(e, rules)
         == match (rules.deductAbsentDays, rules.deductUnpaidLeave)
            case (true, true) => e.absentDays + e.unpaidLeaveDays
            case (true, false) => e.absentDays
            case (false, true) => e.unpaidLeaveDays
            case (false, false) => 0.0
    ensures rules.overtimeMultiplier <= 0.0 || rules.workingHoursPerDay <= 0.0 || e.overtimeMinutes <= 0 ==>
              OvertimePay(e, rules) == 0.0
    ensures rules.overtimeMultiplier > 0.0 && rules.workingHoursPerDay > 0.0 && e.overtimeMinutes > 0 ==>
              PaysOvertime(e, rules)
  {
  }

  /** Every day column is its own count, to two decimals; payable are the working days of the month
      that are not deducted, never negative. The payslip is a draft of its run and period. */
  lemma FreshColumns(run: PayrollRun, runId: RunId, id: PayslipId, e: Payable, rules: PayrollRules)
    requires rules.workingDaysPerMonth > 0.0
    ensures var p := Computed(run, runId, id, e, rules);
            var payable := rules.workingDaysPerMonth - UnpaidDays(e, rules);
            && (p.id, p.runId, p.businessId, p.employeeId) == (id, runId, run.businessId, e.employeeId)
            && (p.year, p.month, p.status, p.items) == (run.year, run.month, Draft, [])
            && p.days.present == Leave.RoundDays(e.presentDays) && p.days.absent == Leave.RoundDays(e.absentDays)
            && p.days.paidLeave == Leave.RoundDays(e.paidLeaveDays)
            && p.days.unpaidLeave == Leave.RoundDays(e.unpaidLeaveDays)
            && p.days.overtimeMinutes == e.overtimeMinutes
            && p.days.payable == (if payable >= 0.0 then Leave.RoundDays(payable) else 0.0)
            && p.pay == ComputedPay(e, rules)
  {
    RoundHalfAwayOfInt(0);
    assert Leave.RoundDays(0.0) == 0.0;
  }

  // ---- what a call does, on its inputs ------------------------------------------------------------------

  predicate HasPayslips(payslips: seq<Payslip>, id: RunId) {
    exists i :: 0 <= i < |payslips| && payslips[i].runId == id
  }

  lemma SelectedIff(payslips: seq<Payslip>, id: RunId)
    ensures Select(OfRun(id), payslips) != [] <==> HasPayslips(payslips, id)
  {
    if Select(OfRun(id), payslips) != [] {
      SelectedAreStored(OfRun(id), payslips, 0);
    }
    if i :| 0 <= i < |payslips| && payslips[i].runId == id {
      SelectedIfHas(OfRun(id), payslips, i);
    }
  }

  /** A business moves its own run: to finalized from draft when it has payslips, to paid from
      finalized. The run gets the status and that status's stamp, each of its payslips the status,
      and nothing else changes. */
  lemma TransitionIs(books: Books, businessId: BusinessId, id: RunId, status: Status, now: int)
    requires status == Finalized || status == Paid
    ensures var moved := Moved(books, businessId, id, status, now);
            && (moved.Success? <==>
                  && id < |books.runs| && books.runs[id].Some? && books.runs[id].value.businessId == businessId
                  && books.runs[id].value.status == (if status == Finalized then Draft else Finalized)
                  && (status == Finalized ==> HasPayslips(books.payslips, id)))
            && (moved.Success? ==>
                  var run, after := books.runs[id].value, moved.value;
                  && after.runs == books.runs[id := Some(
                       if status == Finalized then run.(status := Finalized, finalizedAt := Some(now))
                       else run.(status := Paid, paidAt := Some(now)))]
                  && |after.payslips| == |books.payslips| && after.nextPayslipId == books.nextPayslipId
                  && forall i :: 0 <= i < |books.payslips| ==>
                       after.payslips[i] == if books.payslips[i].runId == id
                                            then books.payslips[i].(status := status) else books.payslips[i])
  {
    SelectedIff(books.payslips, id);
  }

  /** A business deletes its own draft run, with all its payslips and no others, in order. */
  lemma DeletionIs(books: Books, businessId: BusinessId, id: RunId)
    ensures var deleted := Deleted(books, businessId, id);
            && (deleted.Success? <==>
                  && id < |books.runs| && books.runs[id].Some? && books.runs[id].value.businessId == businessId
                  && books.runs[id].value.status == Draft)
            && (deleted.Success? ==>
                  && deleted.value.runs == books.runs[id := None]
                  && (forall p :: p in deleted.value.payslips <==> p in books.payslips && p.runId != id))
  {
    var kept := Select(NotOfRun(id), books.payslips);
    forall p
      ensures p in kept <==> p in books.payslips && p.runId != id
    {
      SelectsMembers(NotOfRun(id), books.payslips, p);
    }
  }

  lemma {:induction false} SelectsMembers(where: Where, payslips: seq<Payslip>, p: Payslip)
    ensures p in Select(where, payslips) <==> p in payslips && where.Has(p)
  {
    if payslips != [] {
      var n := |payslips| - 1;
      SelectsMembers(where, payslips[..n], p);
      assert payslips == payslips[..n] + [payslips[n]];
    }
  }

  /** An adjustment finds the business's payslip, which must be a draft; it replaces the lines by
      those given, none of which may be negative, sets the two ad-hoc columns to the sums of the
      earnings and of the deductions among them, retotals, and changes no other payslip or column. */
  lemma AdjustmentIs(books: Books, businessId: BusinessId, i: nat, items: seq<Item>)
    requires Sound(books) && i < |books.payslips| && books.payslips[i].businessId == businessId
    ensures var p := books.payslips[i];
            var adjusted := WithAdjustment(books, businessId, p.id, items);
            && (adjusted.Success? <==>
                  p.status == Draft && forall k :: 0 <= k < |items| ==> items[k].amountCents >= 0)
            && (adjusted.Success? ==>
                  && |adjusted.value.payslips| == |books.payslips|
                  && adjusted.value == books.(payslips := books.payslips[i := adjusted.value.payslips[i]])
                  && var q := adjusted.value.payslips[i];
                  && q.items == items && AddsUp(q)
                  && q == p.(items := items,
                             pay := p.pay.(bonus := q.pay.bonus, otherDeduction := q.pay.otherDeduction,
                                           gross := q.pay.gross, deduction := q.pay.deduction, net := q.pay.net)))
  {
    var found := FindPayslip(books.payslips, businessId, books.payslips[i].id);
    assert found == Some(i);
    if WithAdjustment(books, businessId, books.payslips[i].id, items).Success? {
      AdjustKeepsSound(books, businessId, books.payslips[i].id, items);
      var after := WithAdjustment(books, businessId, books.payslips[i].id, items).value;
      assert GoodPayslip(after.runs, after.nextPayslipId, after.payslips[i]);
    }
  }

  /** The lines of a kind add up. */
  lemma SumItemsAdds(items: seq<Item>, item: Item, kind: Kind)
    ensures SumItems([], kind) == 0
    ensures SumItems(items + [item], kind) == SumItems(items, kind) + if item.kind == kind then item.amountCents else 0
  {
    assert (items + [item])[..|items|] == items;
  }

  /** The run of the period, or the next position when it has none. */
  predicate IsTarget(runs: seq<Option<PayrollRun>>, businessId: BusinessId, period: Period, id: RunId) {
    if id < |runs| then runs[id].Some? && IsPeriod(runs[id].value, businessId, period.year, period.month)
    else
      && id == |runs|
      && forall k :: 0 <= k < |runs| && runs[k].Some? ==>
           !IsPeriod(runs[k].value, businessId, period.year, period.month)
  }

  lemma TargetIsResolved(books: Books, businessId: BusinessId, period: Period, rules: PayrollRules, id: RunId)
    requires OnePerPeriod(books.runs) && IsTarget(books.runs, businessId, period, id)
    ensures FindRunByPeriod(books.runs, businessId, period.year, period.month)
         == if id < |books.runs| then Some(id) else None
  {
    var found := FindRunByPeriod(books.runs, businessId, period.year, period.month);
    if id < |books.runs| {
      assert HasRun(books.runs, id);
    }
  }

  /** No amount of the payslip is negative. */
  predicate CanBePaid(e: Payable, rules: PayrollRules)
    requires rules.workingDaysPerMonth > 0.0
  {
    var pay := ComputedPay(e, rules);
    && e.overtimeMinutes >= 0 && e.basicSalaryCents >= 0 && pay.overtime >= 0 && pay.absenceDeduction >= 0
    && pay.epfEmployee >= 0 && pay.epfEmployer >= 0 && pay.etf >= 0 && pay.tax >= 0
  }

  predicate AllCanBePaid(employees: seq<Payable>, rules: PayrollRules)
    requires rules.workingDaysPerMonth > 0.0
  {
    && (forall i :: 0 <= i < |employees| ==> CanBePaid(employees[i], rules))
    && (forall i, k :: 0 <= i < k < |employees| ==> employees[i].employeeId != employees[k].employeeId)
  }

  lemma StorableIff(run: PayrollRun, runId: RunId, id: PayslipId, e: Payable, rules: PayrollRules)
    requires rules.workingDaysPerMonth > 0.0
    ensures Storable(Computed(run, runId, id, e, rules)) <==> CanBePaid(e, rules)
  {
  }

  lemma AcceptedIff(run: PayrollRun, runId: RunId, firstId: PayslipId, employees: seq<Payable>, rules: PayrollRules)
    requires rules.workingDaysPerMonth > 0.0
    ensures InsertAccepted(NewPayslips(run, runId, firstId, employees, rules)) <==> AllCanBePaid(employees, rules)
  {
    var slips := NewPayslips(run, runId, firstId, employees, rules);
    forall i | 0 <= i < |slips|
      ensures Storable(slips[i]) <==> CanBePaid(employees[i], rules)
      ensures slips[i].employeeId == employees[i].employeeId
    {
      StorableIff(run, runId, firstId + i, employees[i], rules);
    }
  }

  /** Payroll is generated exactly for a real month with working days and someone to pay, into the
      period's draft or, in the years the table allows, a new run, when no amount is negative and
      nobody is paid twice. */
  lemma GeneratedIff(books: Books, businessId: BusinessId, period: Period, rules: PayrollRules,
                     employees: seq<Payable>, id: RunId)
    requires OnePerPeriod(books.runs) && IsTarget(books.runs, businessId, period, id)
    ensures Generated(books, businessId, period, rules, employees).Success? <==>
            && 1 <= period.month <= 12 && rules.workingDaysPerMonth > 0.0 && employees != []
            && (if id < |books.runs| then books.runs[id].value.status == Draft else 2000 <= period.year <= 2200)
            && AllCanBePaid(employees, rules)
  {
    TargetIsResolved(books, businessId, period, rules, id);
    if rules.workingDaysPerMonth > 0.0 && ResolvedRun(books, businessId, period, rules).Success? {
      AcceptedIff(ResolvedRun(books, businessId, period, rules).value.run, id, books.nextPayslipId, employees, rules);
    }
  }

  lemma GeneratedParts(books: Books, businessId: BusinessId, period: Period, rules: PayrollRules,
                       employees: seq<Payable>, id: RunId)
    requires OnePerPeriod(books.runs) && IsTarget(books.runs, businessId, period, id)
    requires Generated(books, businessId, period, rules, employees).Success?
    ensures var target, after := ResolvedRun(books, businessId, period, rules).value,
                                 Generated(books, businessId, period, rules, employees).value;
            && target.id == id && IsPeriod(target.run, businessId, period.year, period.month)
            && after.nextPayslipId == books.nextPayslipId + |employees|
            && after.payslips == Select(NotOfRun(id), books.payslips)
                                 + NewPayslips(target.run, id, books.nextPayslipId, employees, rules)
    ensures Generated(books, businessId, period, rules, employees).value.runs
         == if id < |books.runs| then books.runs
            else books.runs + [Some(PayrollRun(businessId, period.year, period.month, Draft, rules,
                                               period.notes, None, None))]
  {
    TargetIsResolved(books, businessId, period, rules, id);
  }

  /** A new run holds the period, the rules and the notes, and no stamp; an existing one is not
      touched. The payslips of other runs stay, and after them come as many as there are employees. */
  lemma GeneratedBooksAre(books: Books, businessId: BusinessId, period: Period, rules: PayrollRules,
                          employees: seq<Payable>, id: RunId)
    requires OnePerPeriod(books.runs) && IsTarget(books.runs, businessId, period, id)
    requires Generated(books, businessId, period, rules, employees).Success?
    ensures var after, kept := Generated(books, businessId, period, rules, employees).value,
                               Select(NotOfRun(id), books.payslips);
            && after.runs == (if id < |books.runs| then books.runs
                 else books.runs + [Some(PayrollRun(businessId, period.year, period.month, Draft, rules,
                                                    period.notes, None, None))])
            && after.nextPayslipId == books.nextPayslipId + |employees|
            && |after.payslips| == |kept| + |employees| && kept == after.payslips[..|kept|]
  {
    GeneratedParts(books, businessId, period, rules, employees, id);
  }

  /** The payslip of employee i is the fresh draft of the period's run, under the next id but i. */
  lemma GeneratedPayslipIs(books: Books, businessId: BusinessId, period: Period, rules: PayrollRules,
                           employees: seq<Payable>, id: RunId, run: PayrollRun, i: nat)
    requires OnePerPeriod(books.runs) && IsTarget(books.runs, businessId, period, id) && i < |employees|
    requires Generated(books, businessId, period, rules, employees).Success? && rules.workingDaysPerMonth > 0.0
    requires IsPeriod(run, businessId, period.year, period.month)
    ensures var after, k := Generated(books, businessId, period, rules, employees).value,
                            |Select(NotOfRun(id), books.payslips)|;
            && |after.payslips| == k + |employees|
            && after.payslips[k + i] == Computed(run, id, books.nextPayslipId + i, employees[i], rules)
  {
    GeneratedParts(books, businessId, period, rules, employees, id);
    var target := ResolvedRun(books, businessId, period, rules).value.run;
    SamePeriodSamePayslip(target, run, id, books.nextPayslipId + i, employees[i], rules);
  }

  lemma SamePeriodSamePayslip(a: PayrollRun, b: PayrollRun, runId: RunId, id: PayslipId, e: Payable,
                              rules: PayrollRules)
    requires rules.workingDaysPerMonth > 0.0 && IsPeriod(a, b.businessId, b.year, b.month)
    ensures Computed(a, runId, id, e, rules) == Computed(b, runId, id, e, rules)
  {
  }

  /** Why a call is refused. */
  ghost predicate Refuses(error: Error, books: Books, call: Call) {
    match error
    case MonthOutOfRange => call.Generate? && (call.period.month < 1 || call.period.month > 12)
    case NoWorkingDays => call.Generate? && call.rules.workingDaysPerMonth <= 0.0
    case AlreadyFinalized =>
      && call.Generate?
      && exists id: RunId :: HasRun(books.runs, id) && books.runs[id].value.status != Draft
                             && IsPeriod(books.runs[id].value, call.businessId, call.period.year, call.period.month)
    case NobodyToPay => call.Generate? && call.employees == []
    case RunNotFound =>
      && (call.Finalize? || call.MarkPaid? || call.DeleteRun?)
      && (HasRun(books.runs, call.id) ==> books.runs[call.id].value.businessId != call.businessId)
    case NotDraft =>
      && (call.Finalize? || call.DeleteRun?)
      && HasRun(books.runs, call.id) && books.runs[call.id].value.status != Draft
    case NoPayslips => call.Finalize? && !HasPayslips(books.payslips, call.id)
    case NotFinalized =>
      call.MarkPaid? && HasRun(books.runs, call.id) && books.runs[call.id].value.status != Finalized
    case PayslipNotFound =>
      && call.AdjustPayslip?
      && forall i :: 0 <= i < |books.payslips| ==>
           books.payslips[i].id != call.payslipId || books.payslips[i].businessId != call.businessId
    case PayslipFrozen =>
      && call.AdjustPayslip?
      && exists i :: 0 <= i < |books.payslips| && books.payslips[i].id == call.payslipId
                     && books.payslips[i].status != Draft
    case DatabaseRefused =>
      || (call.AdjustPayslip? && exists k :: 0 <= k < |call.items| && call.items[k].amountCents < 0)
      || (call.Generate? && call.rules.workingDaysPerMonth > 0.0
          && (!AllCanBePaid(call.employees, call.rules) || !(2000 <= call.period.year <= 2200)))
  }

  /** Each refusal names something that is wrong with the call. */
  lemma RefusalIsTrue(books: Books, call: Call)
    requires Outcome(books, call).Failure?
    ensures Refuses(Outcome(books, call).error, books, call)
  {
    match call
    case Generate(b, period, rules, employees) =>
      if rules.workingDaysPerMonth > 0.0 && ResolvedRun(books, b, period, rules).Success? {
        var target := ResolvedRun(books, b, period, rules).value;
        AcceptedIff(target.run, target.id, books.nextPayslipId, employees, rules);
      }
    case Finalize(_, id, _) => SelectedIff(books.payslips, id);
    case MarkPaid(_, _, _) =>
    case DeleteRun(_, _) =>
    case AdjustPayslip(b, payslipId, _) =>
      var found := FindPayslip(books.payslips, b, payslipId);
      assert found.Some? ==> books.payslips[found.value].id == payslipId;
  }
}
