/** Payroll calls that overlap in time. Each call reads and checks first and writes later, in one
    transaction that does not ask again whether the run is still a draft
    (backend/internal/service/hrm_payroll_service.go), so here every call is two steps. The lemmas say
    exactly which interleavings break the freeze, and what holds in all of them. */
module PayrollRaces {
  import opened Payroll
  import opened PayrollSafety
  import opened Wrappers

  type SessionId = nat

  /** What a call that passed its checks will write. */
  datatype Write =
    | Create(run: PayrollRun, slips: seq<Payslip>)
    | Replace(runId: RunId, slips: seq<Payslip>)
    | Lines(businessId: BusinessId, row: Payslip)
    | Move(businessId: BusinessId, runId: RunId, run: PayrollRun)
    | Drop(businessId: BusinessId, runId: RunId)

  datatype State = State(books: Books, open: map<SessionId, Write>)

  datatype Event =
    | Begin(session: SessionId, call: Call)
    | Finish(session: SessionId)

  // ---- reading and checking -----------------------------------------------------------------------

  function PreparedPayslips(books: Books, businessId: BusinessId, period: Period, rules: PayrollRules,
                            employees: seq<Payable>): Option<Write> {
    if period.month < 1 || period.month > 12 || rules.workingDaysPerMonth <= 0.0 then None
    else
      match ResolvedRun(books, businessId, period, rules)
      case Failure(_) => None
      case Success(target) =>
        if employees == [] then None
        else
          var slips := NewPayslips(target.run, target.id, 0, employees, rules);
          Some(if target.id == |books.runs| then Create(target.run, slips) else Replace(target.id, slips))
  }

  function PreparedMove(books: Books, businessId: BusinessId, id: RunId, status: Status, now: int): Option<Write> {
    match Moved(books, businessId, id, status, now)
    case Success(after) => Some(Move(businessId, id, after.runs[id].value))
    case Failure(_) => None
  }

  function PreparedLines(books: Books, businessId: BusinessId, id: PayslipId, items: seq<Item>): Option<Write> {
    match FindPayslip(books.payslips, businessId, id)
    case Some(at) =>
      if books.payslips[at].status != Draft then None
      else Some(Lines(businessId, Adjusted(books.payslips[at], items)))
    case None => None
  }

  function Prepared(books: Books, call: Call): Option<Write> {
    match call
    case Generate(b, period, rules, employees) => PreparedPayslips(books, b, period, rules, employees)
    case Finalize(b, id, now) => PreparedMove(books, b, id, Finalized, now)
    case MarkPaid(b, id, now) => PreparedMove(books, b, id, Paid, now)
    case DeleteRun(b, id) => if Deleted(books, b, id).Success? then Some(Drop(b, id)) else None
    case AdjustPayslip(b, id, items) => PreparedLines(books, b, id, items)
  }

  // ---- writing ------------------------------------------------------------------------------------------

  /** The statements find their rows and break no constraint: a period has one run, a payslip
      belongs to a stored run. Nothing here looks at a status. */
  predicate Lands(books: Books, write: Write) {
    match write
    case Create(run, slips) =>
      && FindRunByPeriod(books.runs, run.businessId, run.year, run.month).None?
      && 2000 <= run.year <= 2200 && InsertAccepted(slips)
    case Replace(id, slips) => HasRun(books.runs, id) && InsertAccepted(slips)
    case Lines(b, row) => FindPayslip(books.payslips, b, row.id).Some? && ItemsAccepted(row.items)
    case Move(b, id, _) => OwnsRun(books.runs, b, id)
    case Drop(b, id) => OwnsRun(books.runs, b, id)
  }

  /** The rows as they are inserted: under the run, with fresh ids. */
  function Inserted(slips: seq<Payslip>, runId: RunId, firstId: PayslipId): (rows: seq<Payslip>)
    ensures |rows| == |slips|
    ensures forall i :: 0 <= i < |rows| ==> rows[i] == slips[i].(id := firstId + i, runId := runId)
  {
    seq(|slips|, i requires 0 <= i < |slips| => slips[i].(id := firstId + i, runId := runId))
  }

  /** UpdatePayslip writes the ad-hoc columns, the totals and the status, and no computed column. */
  function Overwritten(stored: Payslip, row: Payslip): Payslip {
    stored.(status := row.status, items := row.items,
            pay := stored.pay.(bonus := row.pay.bonus, allowance := row.pay.allowance,
                               otherDeduction := row.pay.otherDeduction, gross := row.pay.gross,
                               deduction := row.pay.deduction, net := row.pay.net))
  }

  /** UpdateRunStatus writes the status, the notes and the stamps. */
  function Restamped(stored: PayrollRun, run: PayrollRun): PayrollRun {
    stored.(status := run.status, notes := run.notes, finalizedAt := run.finalizedAt, paidAt := run.paidAt)
  }

  function WithPayslips(books: Books, runs: seq<Option<PayrollRun>>, id: RunId, slips: seq<Payslip>): Books {
    Books(runs, Select(NotOfRun(id), books.payslips) + Inserted(slips, id, books.nextPayslipId),
          books.nextPayslipId + |slips|)
  }

  function Written(books: Books, write: Write): Books
    requires Lands(books, write)
  {
    match write
    case Create(run, slips) => WithPayslips(books, books.runs + [Some(run)], |books.runs|, slips)
    case Replace(id, slips) => WithPayslips(books, books.runs, id, slips)
    case Lines(b, row) =>
      var at := FindPayslip(books.payslips, b, row.id).value;
      books.(payslips := books.payslips[at := Overwritten(books.payslips[at], row)])
    case Move(_, id, run) =>
      books.(runs := books.runs[id := Some(Restamped(books.runs[id].value, run))],
             payslips := WithStatus(books.payslips, id, run.status))
    case Drop(_, id) => books.(runs := books.runs[id := None], payslips := Select(NotOfRun(id), books.payslips))
  }

  function Step(s: State, event: Event): State {
    match event
    case Begin(session, call) =>
      var write := Prepared(s.books, call);
      if session in s.open || write.None? then s else s.(open := s.open[session := write.value])
    case Finish(session) =>
      if session !in s.open then s
      else
        State(if Lands(s.books, s.open[session]) then Written(s.books, s.open[session]) else s.books,
              s.open - {session})
  }

  function RunRaces(events: seq<Event>): State {
    if events == [] then State(EMPTY_BOOKS, map[])
    else Step(RunRaces(events[..|events| - 1]), events[|events| - 1])
  }

  /** The state before event k. */
  function At(events: seq<Event>, k: nat): State
    requires k <= |events|
  {
    RunRaces(events[..k])
  }

  lemma NextState(events: seq<Event>, k: nat)
    requires k < |events|
    ensures At(events, k + 1) == Step(At(events, k), events[k])
  {
    assert events[..k + 1][..k] == events[..k];
  }

  // ---- nothing in between ---------------------------------------------------------------------------------

  lemma GenerateIsAtomic(books: Books, call: Call)
    requires call.Generate?
    ensures match Prepared(books, call)
            case Some(write) => AfterCall(books, call) == if Lands(books, write) then Written(books, write) else books
            case None => AfterCall(books, call) == books
  {
    var write := Prepared(books, call);
    if write.Some? {
      var target := ResolvedRun(books, call.businessId, call.period, call.rules).value;
      var rows := NewPayslips(target.run, target.id, books.nextPayslipId, call.employees, call.rules);
      var slips := write.value.slips;
      assert rows == Inserted(slips, target.id, books.nextPayslipId);
      assert InsertAccepted(rows) <==> InsertAccepted(slips) by {
        SameRowsAccepted(rows, slips);
      }
    }
  }

  lemma SameRowsAccepted(a: seq<Payslip>, b: seq<Payslip>)
    requires |a| == |b|
    requires forall i :: 0 <= i < |a| ==> a[i].(id := b[i].id, runId := b[i].runId) == b[i]
    ensures InsertAccepted(a) <==> InsertAccepted(b)
  {
    assert forall i :: 0 <= i < |a| ==> (Storable(a[i]) <==> Storable(b[i])) && a[i].employeeId == b[i].employeeId;
  }

  lemma AdjustIsAtomic(books: Books, call: Call)
    requires call.AdjustPayslip?
    ensures match Prepared(books, call)
            case Some(write) => AfterCall(books, call) == if Lands(books, write) then Written(books, write) else books
            case None => AfterCall(books, call) == books
  {
    var found := FindPayslip(books.payslips, call.businessId, call.payslipId);
    if found.Some? && books.payslips[found.value].status == Draft {
      var p := books.payslips[found.value];
      assert Overwritten(p, Adjusted(p, call.items)) == Adjusted(p, call.items);
    }
  }

  /** A call that nothing interrupts does what the one-step call does. */
  lemma UninterruptedIsAtomic(s: State, session: SessionId, call: Call)
    requires session !in s.open
    ensures Step(Step(s, Begin(session, call)), Finish(session)) == State(AfterCall(s.books, call), s.open)
  {
    var write := Prepared(s.books, call);
    match call
    case Generate(_, _, _, _) => GenerateIsAtomic(s.books, call);
    case AdjustPayslip(_, _, _) => AdjustIsAtomic(s.books, call);
    case _ =>
    if write.Some? {
      assert s.open[session := write.value] - {session} == s.open;
    }
  }

  // ---- what an open write is ----------------------------------------------------------------------------

  predicate AllDraft(slips: seq<Payslip>) {
    slips != [] && forall i :: 0 <= i < |slips| ==> slips[i].status == Draft
  }

  predicate WriteFits(write: Write) {
    match write
    case Create(run, slips) => run.status == Draft && AllDraft(slips)
    case Replace(_, slips) => AllDraft(slips)
    case Lines(_, row) => row.status == Draft
    case Move(_, _, run) => run.status != Draft
    case Drop(_, _) => true
  }

  predicate Fits(s: State) {
    forall session | session in s.open :: WriteFits(s.open[session])
  }

  lemma StepKeepsFits(s: State, event: Event)
    requires Fits(s)
    ensures Fits(Step(s, event))
  {
  }

  lemma {:induction false} FitsAt(events: seq<Event>, k: nat)
    requires k <= |events|
    ensures Fits(At(events, k))
  {
    if k > 0 {
      FitsAt(events, k - 1);
      NextState(events, k - 1);
      StepKeepsFits(At(events, k - 1), events[k - 1]);
    }
  }

  // ---- the freeze ---------------------------------------------------------------------------------------------

  /** The run a landing write is about. */
  function WrittenRun(books: Books, write: Write): RunId
    requires Lands(books, write)
  {
    match write
    case Create(_, _) => |books.runs|
    case Replace(id, _) => id
    case Lines(b, row) => books.payslips[FindPayslip(books.payslips, b, row.id).value].runId
    case Move(_, id, _) => id
    case Drop(_, id) => id
  }

  /** The write is about a run that is no longer a draft, and does not just move its status on. */
  predicate IsStale(books: Books, write: Write)
    requires Lands(books, write)
  {
    var id := WrittenRun(books, write);
    && HasRun(books.runs, id) && books.runs[id].value.status != Draft
    && !(write.Move? && Rank(books.runs[id].value.status) <= Rank(write.run.status))
  }

  /** The event writes into a run that has been finalised since the call found it a draft, or
      moves a paid run back. */
  predicate Thaws(s: State, event: Event) {
    && event.Finish? && event.session in s.open
    && Lands(s.books, s.open[event.session]) && IsStale(s.books, s.open[event.session])
  }

  predicate NoThaw(events: seq<Event>) {
    forall k :: 0 <= k < |events| ==> !Thaws(At(events, k), events[k])
  }

  /** A run that is no longer a draft is still there, its status has not gone back, and its
      payslips are the same, with the status of the run. */
  predicate RunFrozen(before: Books, after: Books, id: RunId)
    requires HasRun(before.runs, id)
  {
    && HasRun(after.runs, id)
    && Rank(before.runs[id].value.status) <= Rank(after.runs[id].value.status)
    && Select(OfRun(id), after.payslips) == FrozenAs(before.payslips, id, after.runs[id].value.status)
  }

  predicate FreezeKept(before: Books, after: Books) {
    forall id | 0 <= id < |before.runs| && before.runs[id].Some? && before.runs[id].value.status != Draft ::
      RunFrozen(before, after, id)
  }

  /** Every payslip has the status of its run. */
  predicate Agree(books: Books) {
    forall i :: 0 <= i < |books.payslips| ==>
      var p := books.payslips[i];
      HasRun(books.runs, p.runId) && books.runs[p.runId].value.status == p.status
  }

  lemma OwnAgree(books: Books, id: RunId)
    requires Agree(books) && HasRun(books.runs, id)
    ensures Select(OfRun(id), books.payslips) == FrozenAs(books.payslips, id, books.runs[id].value.status)
  {
    var own := Select(OfRun(id), books.payslips);
    forall i | 0 <= i < |own|
      ensures own[i].status == books.runs[id].value.status
    {
      SelectedAreStored(OfRun(id), books.payslips, i);
    }
    assert own == FrozenAs(books.payslips, id, books.runs[id].value.status);
  }

  lemma WithPayslipsAgree(books: Books, runs: seq<Option<PayrollRun>>, id: RunId, slips: seq<Payslip>)
    requires Agree(books) && |books.runs| <= |runs| && books.runs == runs[..|books.runs|]
    requires HasRun(runs, id) && runs[id].value.status == Draft && AllDraft(slips)
    ensures Agree(WithPayslips(books, runs, id, slips))
  {
    var kept := Select(NotOfRun(id), books.payslips);
    forall i | 0 <= i < |kept|
      ensures HasRun(runs, kept[i].runId) && runs[kept[i].runId].value.status == kept[i].status
    {
      SelectedAreStored(NotOfRun(id), books.payslips, i);
      assert HasRun(books.runs, kept[i].runId) && runs[kept[i].runId] == books.runs[kept[i].runId];
    }
  }

  lemma DropAgrees(books: Books, id: RunId)
    requires Agree(books) && HasRun(books.runs, id)
    ensures Agree(books.(runs := books.runs[id := None], payslips := Select(NotOfRun(id), books.payslips)))
  {
    var kept := Select(NotOfRun(id), books.payslips);
    forall i | 0 <= i < |kept|
      ensures kept[i].runId != id && HasRun(books.runs, kept[i].runId)
      ensures books.runs[kept[i].runId].value.status == kept[i].status
    {
      SelectedAreStored(NotOfRun(id), books.payslips, i);
    }
  }

  lemma WriteKeepsAgree(books: Books, write: Write)
    requires Agree(books) && WriteFits(write) && Lands(books, write) && !IsStale(books, write)
    ensures Agree(Written(books, write))
  {
    match write
    case Create(run, slips) => WithPayslipsAgree(books, books.runs + [Some(run)], |books.runs|, slips);
    case Replace(id, slips) => WithPayslipsAgree(books, books.runs, id, slips);
    case Lines(b, row) =>
      var at := FindPayslip(books.payslips, b, row.id).value;
      assert HasRun(books.runs, books.payslips[at].runId);
    case Move(_, id, run) =>
    case Drop(_, id) => DropAgrees(books, id);
  }

  /** A write leaves the payslips of every other run alone. */
  lemma WriteLeavesOthers(books: Books, write: Write, id: RunId)
    requires Lands(books, write) && WrittenRun(books, write) != id
    ensures Select(OfRun(id), Written(books, write).payslips) == Select(OfRun(id), books.payslips)
  {
    var at := WrittenRun(books, write);
    match write
    case Create(_, slips) => InsertLeavesOthers(books, slips, at, id);
    case Replace(_, slips) => InsertLeavesOthers(books, slips, at, id);
    case Lines(b, row) =>
      var i := FindPayslip(books.payslips, b, row.id).value;
      SelectAfterUpdate(OfRun(id), books.payslips, i, Overwritten(books.payslips[i], row));
    case Move(_, _, run) => SelectAfterStatus(OfRun(id), books.payslips, at, run.status);
    case Drop(_, _) => SelectAfterDelete(OfRun(id), books.payslips, at);
  }

  lemma InsertLeavesOthers(books: Books, slips: seq<Payslip>, at: RunId, id: RunId)
    requires at != id
    ensures Select(OfRun(id), Select(NotOfRun(at), books.payslips) + Inserted(slips, at, books.nextPayslipId))
         == Select(OfRun(id), books.payslips)
  {
    var rows := Inserted(slips, at, books.nextPayslipId);
    SelectNone(OfRun(id), rows);
    SelectAfterDelete(OfRun(id), books.payslips, at);
    SelectConcat(OfRun(id), Select(NotOfRun(at), books.payslips), rows);
  }

  lemma FreshWriteKeepsFreeze(books: Books, write: Write)
    requires Agree(books) && Lands(books, write) && !IsStale(books, write)
    ensures FreezeKept(books, Written(books, write))
  {
    var after := Written(books, write);
    forall id | 0 <= id < |books.runs| && books.runs[id].Some? && books.runs[id].value.status != Draft
      ensures RunFrozen(books, after, id)
    {
      if id == WrittenRun(books, write) {
        SelectOwnAfterStatus(books.payslips, id, write.run.status);
      } else {
        OwnAgree(books, id);
        WriteLeavesOthers(books, write, id);
      }
    }
  }

  lemma {:induction false} StoredAreSelected(where: Where, payslips: seq<Payslip>, i: nat)
    requires i < |payslips| && where.Has(payslips[i])
    ensures payslips[i] in Select(where, payslips)
  {
    var n := |payslips| - 1;
    if i < n {
      StoredAreSelected(where, payslips[..n], i);
    }
  }

  lemma FrozenHaveStatus(payslips: seq<Payslip>, id: RunId, status: Status)
    ensures forall p | p in FrozenAs(payslips, id, status) :: p.runId == id && p.status == status
  {
    var own := Select(OfRun(id), payslips);
    forall k | 0 <= k < |own|
      ensures own[k].runId == id
    {
      SelectedAreStored(OfRun(id), payslips, k);
    }
  }

  /** A draft payslip in a run that is no draft is not what was frozen. */
  lemma DraftIsNotFrozen(before: Books, after: Books, id: RunId, i: nat)
    requires HasRun(before.runs, id) && before.runs[id].value.status != Draft
    requires i < |after.payslips| && after.payslips[i].runId == id && after.payslips[i].status == Draft
    ensures !RunFrozen(before, after, id)
  {
    StoredAreSelected(OfRun(id), after.payslips, i);
    if HasRun(after.runs, id) {
      FrozenHaveStatus(before.payslips, id, after.runs[id].value.status);
    }
  }

  lemma StaleWriteBreaksFreeze(books: Books, write: Write)
    requires WriteFits(write) && Lands(books, write) && IsStale(books, write)
    ensures !FreezeKept(books, Written(books, write))
  {
    var id, after := WrittenRun(books, write), Written(books, write);
    match write
    case Create(_, _) =>
    case Replace(_, slips) =>
      DraftIsNotFrozen(books, after, id, |after.payslips| - 1);
      assert !RunFrozen(books, after, id);
    case Lines(b, row) =>
      DraftIsNotFrozen(books, after, id, FindPayslip(books.payslips, b, row.id).value);
      assert !RunFrozen(books, after, id);
    case Move(_, _, _) =>
      assert !RunFrozen(books, after, id);
    case Drop(_, _) =>
      assert !RunFrozen(books, after, id);
  }

  lemma NothingWrittenKeepsFreeze(books: Books)
    requires Agree(books)
    ensures FreezeKept(books, books)
  {
    forall id | 0 <= id < |books.runs| && books.runs[id].Some? && books.runs[id].value.status != Draft
      ensures RunFrozen(books, books, id)
    {
      OwnAgree(books, id);
    }
  }

  /** A step keeps the freeze exactly when it does not thaw. */
  lemma StepKeepsFreezeIff(s: State, event: Event)
    requires Fits(s) && Agree(s.books)
    ensures FreezeKept(s.books, Step(s, event).books) <==> !Thaws(s, event)
    ensures !Thaws(s, event) ==> Agree(Step(s, event).books)
  {
    if event.Finish? && event.session in s.open && Lands(s.books, s.open[event.session]) {
      var write := s.open[event.session];
      if IsStale(s.books, write) {
        StaleWriteBreaksFreeze(s.books, write);
      } else {
        FreshWriteKeepsFreeze(s.books, write);
        WriteKeepsAgree(s.books, write);
      }
    } else {
      NothingWrittenKeepsFreeze(s.books);
    }
  }

  lemma FreezeComposes(a: Books, b: Books, c: Books)
    requires FreezeKept(a, b) && FreezeKept(b, c)
    ensures FreezeKept(a, c)
  {
    forall id | 0 <= id < |a.runs| && a.runs[id].Some? && a.runs[id].value.status != Draft
      ensures RunFrozen(a, c, id)
    {
      assert RunFrozen(a, b, id);
      assert RunFrozen(b, c, id);
      var status := c.runs[id].value.status;
      FrozenHaveStatus(a.payslips, id, b.runs[id].value.status);
      assert FrozenAs(b.payslips, id, status) == FrozenAs(a.payslips, id, status);
    }
  }

  lemma {:induction false} AgreeSoFar(events: seq<Event>, k: nat)
    requires k <= |events|
    requires forall i :: 0 <= i < k ==> !Thaws(At(events, i), events[i])
    ensures Agree(At(events, k).books)
  {
    if k > 0 {
      AgreeSoFar(events, k - 1);
      NextState(events, k - 1);
      FitsAt(events, k - 1);
      StepKeepsFreezeIff(At(events, k - 1), events[k - 1]);
    }
  }

  lemma {:induction false} FrozenFrom(events: seq<Event>, k: nat, m: nat)
    requires k <= m <= |events| && NoThaw(events)
    ensures FreezeKept(At(events, k).books, At(events, m).books)
    decreases m
  {
    if k == m {
      AgreeSoFar(events, k);
      NothingWrittenKeepsFreeze(At(events, k).books);
    } else {
      FrozenFrom(events, k, m - 1);
      AgreeSoFar(events, m - 1);
      NextState(events, m - 1);
      FitsAt(events, m - 1);
      StepKeepsFreezeIff(At(events, m - 1), events[m - 1]);
      FreezeComposes(At(events, k).books, At(events, m - 1).books, At(events, m).books);
    }
  }

  lemma {:induction false} FirstThaw(events: seq<Event>, n: nat) returns (k: nat)
    requires n <= |events| && exists i :: 0 <= i < n && Thaws(At(events, i), events[i])
    ensures k < n && Thaws(At(events, k), events[k])
    ensures forall i :: 0 <= i < k ==> !Thaws(At(events, i), events[i])
  {
    if exists i :: 0 <= i < n - 1 && Thaws(At(events, i), events[i]) {
      k := FirstThaw(events, n - 1);
    } else {
      k := n - 1;
    }
  }

  /** In every interleaving the freeze holds from every moment to every later one - what has been
      finalised stays, and so does each of its payslips - exactly when no call that found a draft
      writes after the run was finalised, and none moves a paid run back. */
  lemma FreezeHoldsIff(events: seq<Event>)
    ensures (forall k: nat, m: nat | k <= m <= |events| :: FreezeKept(At(events, k).books, At(events, m).books))
            <==> NoThaw(events)
  {
    if NoThaw(events) {
      forall k: nat, m: nat | k <= m <= |events|
        ensures FreezeKept(At(events, k).books, At(events, m).books)
      {
        FrozenFrom(events, k, m);
      }
    } else {
      var k := FirstThaw(events, |events|);
      AgreeSoFar(events, k);
      NextState(events, k);
      FitsAt(events, k);
      StepKeepsFreezeIff(At(events, k), events[k]);
      assert !FreezeKept(At(events, k).books, At(events, k + 1).books);
    }
  }

  // ---- a generation that comes too late ---------------------------------------------------------------------

  lemma LateReplacement(books: Books, id: RunId, slips: seq<Payslip>)
    requires HasRun(books.runs, id) && InsertAccepted(slips) && AllDraft(slips)
    ensures var after := Written(books, Replace(id, slips));
            && after.runs == books.runs && |Select(OfRun(id), after.payslips)| == |slips|
            && forall p | p in Select(OfRun(id), after.payslips) :: p.status == Draft && p.id >= books.nextPayslipId
  {
    SelectReplaced(books.payslips, id, Inserted(slips, id, books.nextPayslipId));
  }

  /** What a regeneration of an existing draft will write. */
  lemma RegenerationReplaces(books: Books, generate: Call, id: RunId)
    requires generate.Generate? && id < |books.runs|
    requires Generated(books, generate.businessId, generate.period, generate.rules, generate.employees).Success?
    requires ResolvedRun(books, generate.businessId, generate.period, generate.rules).value.id == id
    ensures var write := Prepared(books, generate);
            && write.Some? && write.value.Replace? && write.value.runId == id
            && InsertAccepted(write.value.slips) && AllDraft(write.value.slips)
            && |write.value.slips| == |generate.employees| > 0
  {
    var target := ResolvedRun(books, generate.businessId, generate.period, generate.rules).value;
    SameRowsAccepted(NewPayslips(target.run, id, books.nextPayslipId, generate.employees, generate.rules),
                     Prepared(books, generate).value.slips);
  }

  /** Whenever a regeneration has read a draft and the run is then finalised, the regeneration
      still replaces all the payslips: the run is finalized, its payslips are new drafts. */
  lemma LateGenerationReplacesFinalized(s: State, a: SessionId, b: SessionId, generate: Call, id: RunId, now: int)
    requires a !in s.open && b !in s.open && a != b && generate.Generate?
    requires Generated(s.books, generate.businessId, generate.period, generate.rules, generate.employees).Success?
    requires ResolvedRun(s.books, generate.businessId, generate.period, generate.rules).value.id == id
    requires Moved(s.books, generate.businessId, id, Finalized, now).Success?
    ensures var finalized := Step(Step(Step(s, Begin(a, generate)),
                                       Begin(b, Finalize(generate.businessId, id, now))), Finish(b));
            var after := Step(finalized, Finish(a)).books;
            && HasRun(after.runs, id) && after.runs[id].value.status == Finalized
            && |Select(OfRun(id), after.payslips)| == |generate.employees| > 0
            && forall p | p in Select(OfRun(id), after.payslips) :: p.status == Draft && p.id >= s.books.nextPayslipId
  {
    var finalize := Finalize(generate.businessId, id, now);
    RegenerationReplaces(s.books, generate, id);
    var late, s1 := Prepared(s.books, generate).value, Step(s, Begin(a, generate));
    assert s1 == s.(open := s.open[a := late]);
    UninterruptedIsAtomic(s1, b, finalize);
    var s3 := Step(Step(s1, Begin(b, finalize)), Finish(b));
    assert s3 == State(AfterCall(s.books, finalize), s1.open);
    assert HasRun(s3.books.runs, id) && s3.books.runs[id].value.status == Finalized;
    LateReplacement(s3.books, id, late.slips);
    assert Step(s3, Finish(a)).books == Written(s3.books, late);
  }

  // ---- what no interleaving breaks ----------------------------------------------------------------------------

  /** The columns a generation computes and no later write touches. */
  predicate SameComputed(a: Payslip, b: Payslip) {
    && a.pay.basic == b.pay.basic && a.pay.overtime == b.pay.overtime
    && a.pay.absenceDeduction == b.pay.absenceDeduction
    && a.pay.epfEmployee == b.pay.epfEmployee && a.pay.tax == b.pay.tax
  }

  /** The payslips stored under the row's id carry its computed columns. */
  predicate Matches(books: Books, row: Payslip) {
    && row.id < books.nextPayslipId
    && forall i :: 0 <= i < |books.payslips| && books.payslips[i].id == row.id ==> SameComputed(books.payslips[i], row)
  }

  predicate AllAddUp(slips: seq<Payslip>) {
    forall i :: 0 <= i < |slips| ==> AddsUp(slips[i])
  }

  predicate WriteCoheres(books: Books, write: Write) {
    match write
    case Create(run, slips) => 1 <= run.month <= 12 && AllAddUp(slips)
    case Replace(_, slips) => AllAddUp(slips)
    case Lines(_, row) => AddsUp(row) && Matches(books, row)
    case _ => true
  }

  /** One run a period, one payslip an employee and run, and every payslip adds up. */
  predicate Coherent(books: Books) {
    && OnePerPeriod(books.runs) && Distinct(books.payslips) && AllAddUp(books.payslips)
    && forall i :: 0 <= i < |books.payslips| ==> books.payslips[i].id < books.nextPayslipId
  }

  predicate Coheres(s: State) {
    Coherent(s.books) && forall session | session in s.open :: WriteCoheres(s.books, s.open[session])
  }

  lemma PreparedCoheres(books: Books, call: Call)
    requires Coherent(books) && Prepared(books, call).Some?
    ensures WriteCoheres(books, Prepared(books, call).value)
  {
    if call.Generate? {
      var target := ResolvedRun(books, call.businessId, call.period, call.rules).value;
      forall i | 0 <= i < |call.employees|
        ensures AddsUp(Computed(target.run, target.id, i, call.employees[i], call.rules))
      {
        ComputedAddsUp(target.run, target.id, i, call.employees[i], call.rules);
      }
    }
  }

  lemma WithPayslipsCoheres(books: Books, runs: seq<Option<PayrollRun>>, id: RunId, slips: seq<Payslip>)
    requires Coherent(books) && OnePerPeriod(runs) && InsertAccepted(slips) && AllAddUp(slips)
    ensures Coherent(WithPayslips(books, runs, id, slips))
  {
    var kept, rows := Select(NotOfRun(id), books.payslips), Inserted(slips, id, books.nextPayslipId);
    SelectDistinct(NotOfRun(id), books.payslips);
    KeptAreStored(books, id);
    SameRowsAccepted(slips, rows);
    ReplacementIsDistinct(kept, rows, id, books.nextPayslipId);
    assert forall i :: 0 <= i < |rows| ==> rows[i].pay == slips[i].pay && rows[i].items == slips[i].items;
  }

  lemma KeptAreStored(books: Books, id: RunId)
    ensures forall p | p in Select(NotOfRun(id), books.payslips) :: p in books.payslips && p.runId != id
  {
    var kept := Select(NotOfRun(id), books.payslips);
    forall i | 0 <= i < |kept|
      ensures kept[i] in books.payslips && kept[i].runId != id
    {
      SelectedAreStored(NotOfRun(id), books.payslips, i);
    }
  }

  lemma CreateKeepsPeriods(books: Books, run: PayrollRun)
    requires OnePerPeriod(books.runs) && 1 <= run.month <= 12
    requires FindRunByPeriod(books.runs, run.businessId, run.year, run.month).None?
    ensures OnePerPeriod(books.runs + [Some(run)])
  {
    assert forall i :: 0 <= i < |books.runs| && books.runs[i].Some? ==> HasRun(books.runs, i);
  }

  lemma PutKeepsDistinct(payslips: seq<Payslip>, at: nat, p: Payslip)
    requires Distinct(payslips) && at < |payslips|
    requires p.id == payslips[at].id && p.runId == payslips[at].runId && p.employeeId == payslips[at].employeeId
    ensures Distinct(payslips[at := p])
  {
  }

  lemma MoveKeepsCoherent(books: Books, id: RunId, run: PayrollRun)
    requires Coherent(books) && HasRun(books.runs, id)
    ensures Coherent(books.(runs := books.runs[id := Some(Restamped(books.runs[id].value, run))],
                            payslips := WithStatus(books.payslips, id, run.status)))
  {
    StatusKeepsDistinct(books.payslips, id, run.status);
    var after := WithStatus(books.payslips, id, run.status);
    assert forall i :: 0 <= i < |after| ==> AddsUp(books.payslips[i]) ==> AddsUp(after[i]);
  }

  lemma WriteKeepsCoherent(books: Books, write: Write)
    requires Coherent(books) && WriteCoheres(books, write) && Lands(books, write)
    ensures Coherent(Written(books, write))
  {
    match write
    case Create(run, slips) =>
      CreateKeepsPeriods(books, run);
      WithPayslipsCoheres(books, books.runs + [Some(run)], |books.runs|, slips);
    case Replace(id, slips) => WithPayslipsCoheres(books, books.runs, id, slips);
    case Lines(b, row) =>
      var at := FindPayslip(books.payslips, b, row.id).value;
      PutKeepsDistinct(books.payslips, at, Overwritten(books.payslips[at], row));
      assert AddsUp(Overwritten(books.payslips[at], row));
    case Move(_, id, run) => MoveKeepsCoherent(books, id, run);
    case Drop(_, id) =>
      SelectDistinct(NotOfRun(id), books.payslips);
      KeptAreStored(books, id);
  }

  /** No write changes the computed columns under an id. */
  lemma WriteKeepsMatching(books: Books, write: Write, row: Payslip)
    requires Matches(books, row) && Lands(books, write)
    ensures Matches(Written(books, write), row)
  {
    match write
    case Create(_, _) => KeptAreStored(books, |books.runs|);
    case Replace(id, _) => KeptAreStored(books, id);
    case Drop(_, id) => KeptAreStored(books, id);
    case _ =>
  }

  lemma StepKeepsCoheres(s: State, event: Event)
    requires Coheres(s)
    ensures Coheres(Step(s, event))
  {
    match event
    case Begin(session, call) =>
      if Prepared(s.books, call).Some? {
        PreparedCoheres(s.books, call);
      }
    case Finish(session) =>
      if session in s.open && Lands(s.books, s.open[session]) {
        var write := s.open[session];
        WriteKeepsCoherent(s.books, write);
        forall other | other in s.open && other != session
          ensures WriteCoheres(Written(s.books, write), s.open[other])
        {
          if s.open[other].Lines? {
            WriteKeepsMatching(s.books, write, s.open[other].row);
          }
        }
      }
  }

  lemma {:induction false} CoheresAt(events: seq<Event>, k: nat)
    requires k <= |events|
    ensures Coheres(At(events, k))
  {
    if k == 0 {
      assert At(events, 0) == State(EMPTY_BOOKS, map[]);
    } else {
      CoheresAt(events, k - 1);
      StepKeepsCoheres(At(events, k - 1), events[k - 1]);
      assert Coheres(Step(At(events, k - 1), events[k - 1]));
      NextState(events, k - 1);
    }
  }

  /** Whatever interleaves, late writes included: a business has one run for a month, an employee
      one payslip in a run, and every payslip adds up. */
  lemma EveryInterleavingAddsUp(events: seq<Event>, k: nat)
    requires k <= |events|
    ensures OnePerPeriod(At(events, k).books.runs) && Distinct(At(events, k).books.payslips)
    ensures forall p | p in At(events, k).books.payslips :: AddsUp(p)
  {
    CoheresAt(events, k);
  }
}
