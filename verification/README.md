# Verified model of the POS back office

Dafny models of the parts of the point-of-sale system that must not go wrong - order sync and
the stock ledger, cart arithmetic on both sides, CSV export and import, refresh tokens, leave,
attendance and payroll, search escaping, employee codes and the two in-memory stores - and proofs
of what they promise over every input and every run. `dafny verify dfyconfig.toml` checks
everything.

Code that changes rows step by step is a class whose methods reassign its tables and are proved
against a specification function of the old state (`AfterCall`, `AfterAttempt`, `Commit`, ...). A
`Run` function folds that specification over any sequence of calls, and the lemmas are about every
run. Pure code is functions. Money is integer cents, day counts and fractional quantities are
`real`, instants are nanoseconds, dates are day numbers, fresh ids are parameters or table
positions.

Two kinds of lemmas stand beside each other. The laws say what holds over every run or every
interleaving. And for each operation there are lemmas that say on its inputs alone, without its own
specification function on the right, when it is accepted, what it writes and what it leaves alone
(`StoredSalesAreSubmitted`, `RefreshRotates`, `RegisterIsSound`, `FiledRequestIs`, `FreshLines`,
`TransitionIs`, `EveryRowWasHired`), and that each refusal is true (`RefusalIsTrue`).

| file | what it models |
|---|---|
| `CartMath.dfy`, `Rounding.dfy` | `ComputeTotals` (Go loop, halves away from zero) and `computeCartTotal` (TypeScript folds, halves up), discounts |
| `OrderSync.dfy`, `OrderLedger.dfy` | the sync transaction with a fault at any statement, stock and the append-only ledger |
| `Csv.dfy` | `parseCsv`, `csvToRecords`, `toCsv`, and every rendering RFC 4180 section 2 allows |
| `Tokens.dfy` | refresh-token families, rotation and reuse detection |
| `TokenRaces.dfy` | refreshes split into verify, revoke and issue, in every interleaving |
| `Calendar.dfy`, `Shifts.dfy` | Gregorian day numbers, leave years, payroll months, working patterns |
| `Attendance.dfy` | the attendance register |
| `Leave.dfy`, `LeaveSafety.dfy`, `LeaveViews.dfy` | leave requests, their invariants, and the views that total them |
| `LeaveRaces.dfy` | the leave calls split into check and write, in every interleaving |
| `PayrollInputs.dfy` | the attendance summary and leave totals a payroll run reads, and when payslips deduct a day twice |
| `Payroll.dfy`, `PayrollSafety.dfy`, `PayrollReport.dfy` | payroll runs and payslips, the one-way freeze, the year report |
| `PayrollRaces.dfy` | the payroll calls split into read and write, in every interleaving |
| `Search.dfy` | `EscapeLike` and `likePattern` against the pattern language of section 9.7.1 of the PostgreSQL manual |
| `EmployeeCodes.dfy` | interleaved hires that lock, read the maximum, insert and commit or roll back |
| `Denylist.dfy`, `PermissionCache.dfy` | the purging denylist against an unpurged log; the permission cache with the steps of a resolution interleaving freely |
| `Sequences.dfy`, `Numbers.dfy`, `Wrappers.dfy` | filters, maps, `Min`, `Max`, `Option`, `Result` |

Where the code does not keep a promise for all inputs, the exact condition is proved:

- Server and till agree to the cent on every non-negative cart. On any cart and any discount they
  agree exactly when the slack of the till's discounted tax covers the share of a cent the server
  loses on each tied line (`TotalsAgreeIff`); a single returned line can break it
  (`NegativeQuantityDisagrees`). An order carrying the till's own figures is flagged exactly when the slack
  does not cover it (`HonestOrderFlaggedIff`).
- A logout revokes only the token presented. It ends the session exactly when that token was the live
  one (`LogoutEndsFamilyIff`); with a token already rotated away it logs nothing out
  (`LogoutWithRotatedToken`).
- Refreshes that overlap keep every family one linear chain exactly when each successor issued is that of a
  token still the last of its family (`FamiliesStayChainsIff`); two that verify one token together give it
  two live children (`TwoRefreshesBranch`). A revoked family stays dead exactly when no refresh that had
  verified a token of it issues its successor later (`DeadFamilyStaysDeadIff`), so a revocation is final
  exactly when no such refresh is under way (`RevocationIsFinalIff`).
- Columns of an imported CSV file can all be read back only when the trimmed headers are distinct
  (`ColumnsReadBackIff`); exported rows come back as records exactly when the header row is not blank or
  there is no row to read (`RecordsUndoExportIff`).
- The next employee code is fresh unless the largest 64-bit number is taken (`AllocationIsFreshIff`).
- A clock-out in the small hours closes last night's row unless the new date already has an open
  row of its own (`ClockOutClosesOpenedDayIff`).
- `CrossesMidnight` and `ScheduledMinutes` disagree on shifts that end later within the minute they
  start in (`MidnightTestsAgreeIff`).
- The balance screen adds up to what payroll sees unless an approved request is of a type since
  deactivated or deleted (`BalanceScreenMatchesPayrollIff`).
- The pending column of the balance screen is complete exactly when no request left out of the 200 it
  fetches is of a type it lists (`PendingColumnIsCompleteIff`); the fetched page itself is complete exactly
  up to 200 pending requests (`PageIsCompleteIff`).
- Leave calls that overlap in time keep the calendar safe, decisions final and quotas kept exactly when no
  call writes over a decision taken since it read, none files after a clashing request was filed since it
  checked, and no approval is written that no longer fits (`InterleavingIsSafeIff`, `QuotaHoldsIff`). Two
  equal applications checked together are both filed (`TwoChecksBookTwice`), an approval overrides a
  withdrawal (`ApprovalOverridesWithdrawal`), and two approvals checked together overspend
  (`QuotaIsOverspent`, `TwoApprovalsOverspendIff`).
- The payslips of an employee for different months together deduct a day more than once exactly when one of
  them charges it as an absence and one of them, the same or another, as unpaid leave
  (`DayDeductedTwiceIff`). Recording an absence by hand on such a day does it
  (`AbsenceOnLeaveDeductedTwice`), also across months, because leave is charged to the month it starts in
  (`DeductedInTwoMonths`).
- Payroll calls that overlap in time keep the freeze exactly when none that found a draft writes after the
  run was finalised, and none moves a paid run back (`FreezeHoldsIff`); a generation that comes too late
  replaces every finalised payslip (`LateGenerationReplacesFinalized`). Whatever interleaves, payslips add
  up and a month has one run (`EveryInterleavingAddsUp`).
- After `Invalidate`, permission answers are current in every interleaving exactly when no resolution of the
  user is in flight with something out of date (`InvalidateMakesAnswersCurrentIff`); a read it overtakes is
  answered for a full ttl more (`OvertakenReadOutlivesInvalidate`). The two queries of one resolution can
  mix two instants (`TornReadIsCurrentIff`, `TornAnswerWasNeverGranted`).
- `UpdateRunStatus` writes outside the transaction that moves the payslips. When the second statement
  fails the freeze is broken (`HalfFinalizedStillAdjustable`), in reachable books always
  (`HalfMoveIsSoundIff`, `ReachableHalfMoveIsUnsound`).
- The comment on `ComputeTotals` promises agreement with the till without a condition, and the comment
  on the payroll table calls the stored rules the ones the run was computed under. The code wins in both
  cases: regenerating a draft writes neither its rules nor its notes (`StatusesOnlyAdvance`,
  `SnapshotIsCurrentIff`).

## Model

| member | source | states |
|---|---|---|
| CartMath.ComputeTotals | backend/internal/service/order_sync_service.go:307-335 | the accumulating loop computes the server's subtotal, tax and total of the cart |
| CartMath.TillTotals | frontend/src/lib/cart-math.ts:84-105 | the till's folds give the same sums as a recursion over the lines, rounded half up once at the end |
| CartMath.SumTaxBehindByTies | frontend/src/lib/cart-math.ts:88-92 | per-line tax: the server's sum is the till's less one cent for every line whose tax is a negative tie |
| CartMath.SumTaxAgreesIff | frontend/src/lib/cart-math.ts:88-92 | per-line tax: the server's sum never exceeds the till's and equals it exactly when no line is a negative tie |
| CartMath.SubtotalsAlwaysAgree | backend/internal/service/order_sync_service.go:316-331 | subtotal and the kept share of the cart agree on every cart, negative ones included, despite the two rounding rules |
| CartMath.TotalsAgreeIff | backend/internal/service/order_sync_service.go:307-335 | for every cart and every discount: all three figures agree exactly when the slack of the till's discounted tax covers the discounted cents lost on tied lines |
| CartMath.TotalsAgreeIffNoFinalTie | backend/internal/service/order_sync_service.go:326-334 | the special case of a cart without line ties: exactly when the discounted tax is not a negative tie |
| CartMath.UndiscountedTotalsAgreeIff | backend/internal/service/order_sync_service.go:307-335 | the special case of no discount: exactly when no line's tax is a negative tie |
| CartMath.FullyDiscountedTotalsAgree | backend/internal/service/order_sync_service.go:317-334 | a discount of the whole subtotal gives three zeros on both sides, ties or not |
| CartMath.ServerAgreesWithTill | backend/internal/service/order_sync_service.go:188-200 | for every non-negative cart and every integer discount, both implementations agree to the cent |
| CartMath.NegativeQuantityDisagrees | backend/internal/service/order_sync_service.go:311-313 | a concrete returned line on which the two differ by a cent |
| CartMath.TaxWithinHalfCentPerLine | backend/internal/service/order_sync_service.go:307-335 | with n lines the tax is within (n+1)/2 cents of the unrounded discounted tax |
| CartMath.LargerDiscountNeverRaisesTotals | backend/internal/service/order_sync_service.go:317-334 | a larger discount never raises subtotal, tax or total, and none is negative |
| CartMath.BogoFreesGetOfEveryGroup | frontend/src/lib/cart-math.ts:34-47 | buy N get M frees exactly M units of each full group of N+M and none of the rest |
| CartMath.BogoAtMostGross | frontend/src/lib/cart-math.ts:34-47 | the BOGO discount is between zero and the gross of the lines it looks at |
| CartMath.ScopeNeverRaisesGross | frontend/src/lib/cart-math.ts:15-17 | restricting a cart to a product scope never raises its gross |
| CartMath.BogoNeedsNoClamp | frontend/src/lib/cart-math.ts:34-47 | the one unclamped branch never exceeds the rounded raw subtotal |
| CartMath.DiscountNeverExceedsSubtotal | frontend/src/lib/cart-math.ts:8-65 | whatever the campaign, the discount is at most the subtotal it is shown against |
| CartMath.ShareTakenOff | frontend/src/lib/cart-math.ts:24-32 | a percentage takes that share of the subtotal, or of the lines it names, rounded half up and capped |
| CartMath.FreeUnitsTakenOff | frontend/src/lib/cart-math.ts:34-47 | buy N get M takes the free units of every covered line, with N and M at least one |
| CartMath.AmountTakenOff | frontend/src/lib/cart-math.ts:20-62 | a fixed amount is capped at the subtotal; a bundle amount too, and only when every product of a bundle that names some is in the cart |
| Rounding.RoundHalfAwayCharacterised | backend/internal/service/order_sync_service.go:313-316 | Go's rounding: a nearest integer, ties away from zero |
| Rounding.RoundHalfUpCharacterised | frontend/src/lib/cart-math.ts:84-105 | JavaScript's rounding: a nearest integer, ties upwards |
| Rounding.RoundingsAgreeIff | backend/internal/service/order_sync_service.go:307-335 | the two rules agree exactly off negative ties |
| OrderSync.OrderDatabase.InsertIfNew | backend/internal/repository/order_repository.go:98-146 | stores the stamped order with its items and payments exactly when the (business, client id) key is free, and says which happened |
| OrderSync.OrderDatabase.ApplyDelta | backend/internal/repository/order_repository.go:280-310 | adds the delta to one product of the business and returns the new balance; not found changes nothing |
| OrderSync.OrderDatabase.RecordMovement | backend/internal/repository/order_repository.go:312-318 | appends one ledger row |
| OrderSync.OrderDatabase.DeductLine | backend/internal/service/order_sync_service.go:240-265 | one line: stock and journal move together, or the failing statement is reported |
| OrderSync.OrderDatabase.DeductLines | backend/internal/service/order_sync_service.go:240-266 | the loop over the lines equals deducting them in order |
| OrderSync.OrderDatabase.StoreOrder | backend/internal/service/order_sync_service.go:233-269 | the body of the transaction, statement by statement |
| OrderSync.OrderDatabase.PrepareOrder | backend/internal/service/order_sync_service.go:168-231 | the row to store: the till's figures, lines and payments, and the server's own figures exactly when they differ |
| OrderSync.OrderDatabase.InTransaction | backend/internal/service/order_sync_service.go:233-275 | commits all statements or restores every table |
| OrderSync.OrderDatabase.SyncOne | backend/internal/service/order_sync_service.go:162-275 | one order: the tables after it and its outcome, for a fault at any statement |
| OrderSync.OrderDatabase.Sync | backend/internal/service/order_sync_service.go:129-160 | a batch is its orders one by one, with one outcome each, which `OutcomesReport` says is true |
| OrderSync.FaultsLeaveNoTrace | backend/internal/service/order_sync_service.go:233-275 | any run with faults ends where committing its successful orders, and nothing else, would |
| OrderSync.RunAppendsOrders | backend/internal/repository/order_repository.go:98-146 | stored orders are only appended, in commit order |
| OrderSync.StoredAtMostOnce | backend/internal/repository/order_repository.go:98-146 | over every run, replays and duplicates included, a (business, client id) is stored at most once |
| OrderSync.RunSplits | backend/internal/service/order_sync_service.go:129-160 | how orders are split into batches makes no difference |
| OrderSync.StoredForever | backend/internal/repository/order_repository.go:98-146 | a stored order stays stored |
| OrderSync.UnfailedAttemptIsStored | backend/internal/service/order_sync_service.go:129-160 | one attempt without a failing statement is enough, whatever happens before and after |
| OrderSync.AcknowledgedIsStored | backend/internal/service/order_sync_service.go:137-157 | an order answered synced or already synced is stored at the end |
| OrderSync.ReplayChangesNothing | backend/internal/service/order_sync_service.go:162-275 | replaying stored orders changes no table under any faults |
| OrderSync.RedeliveryIsIdempotent | backend/internal/service/order_sync_service.go:129-160 | after a fault-free delivery, delivering any of it again in any order is a no-op |
| OrderSync.StoredSalesAreSubmitted | backend/internal/service/order_sync_service.go:168-231 | over every run: the table holds what it held and then, for each attempt that stored a sale, the sale as submitted - all lines, all payments and figures, under the order's id - with the till's own subtotal |
| OrderSync.SaleIsStoredIff | backend/internal/service/order_sync_service.go:233-275 | an attempt stores its sale exactly when its key is new and every statement it needs succeeds, counted from the submitted lines; else no table changes |
| OrderSync.OutcomesReport | backend/internal/service/order_sync_service.go:133-159 | outcome i is about order i: synced exactly when its key was not stored before, is after, and the commit was acknowledged, with the id of the stored row; already synced exactly when it was stored before and the insert did not fail; else an error without an id; after the first two it is stored at the end |
| OrderSync.SyncedAtMostOnce | backend/internal/service/order_sync_service.go:137-157 | the same sale is reported "synced" at most once |
| OrderLedger.StockConserved | backend/internal/service/order_sync_service.go:233-269 | stock plus units sold by stored orders is constant for every product over every run |
| OrderLedger.StockIsOpeningLessSales | backend/internal/service/order_sync_service.go:240-265 | on the inputs: a product's stock is its opening stock less the units on the submitted lines of the sales that were stored |
| OrderLedger.LedgerIsRunningBalance | backend/internal/repository/order_repository.go:280-318 | the k-th ledger row of a product holds opening stock plus the first k deltas |
| OrderLedger.FreshLedgerIsFaithful | backend/internal/repository/order_repository.go:312-318 | an empty ledger explains the stock it starts from |
| OrderLedger.LedgerExplainsStoredOrders | backend/internal/service/order_sync_service.go:233-269 | the ledger holds exactly the submitted lines of the stored sales, in order, each under its order's id; rolled-back sales leave no row |
| OrderLedger.OtherBusinessesUntouched | backend/internal/service/order_sync_service.go:129-275 | a business sees exactly what its own attempts alone would have produced |
| OrderLedger.FlaggedIffTillDisagrees | backend/internal/service/order_sync_service.go:188-200 | an order is flagged exactly when it does not carry the till's own figures |
| OrderLedger.HonestOrderFlaggedIff | backend/internal/service/order_sync_service.go:188-200 | any order that carries the till's figures, returned lines included, is flagged exactly when the slack does not cover the loss |
| Csv.TrimStripsBothEnds | frontend/src/lib/csv.ts:51-60 | trimming removes exactly the white space at both ends |
| Csv.HasTextIff | frontend/src/lib/csv.ts:51 | the filter keeps a row exactly when one character of one cell is not white space |
| Csv.ParseCsv | frontend/src/lib/csv.ts:5-52 | the one-pass loop with its index, row, field and quote flag computes the recursive reading, without the rows `HasTextIff` says are blank |
| Csv.ScanQuotedBody | frontend/src/lib/csv.ts:16-28 | a doubled body and its closing quote are read as the cell |
| Csv.ScanBreak | frontend/src/lib/csv.ts:35-40 | CR, LF and CR LF each end one row |
| Csv.ScanRendering | frontend/src/lib/csv.ts:5-52 | scanning any rendering finds exactly its rows, up to blank ones |
| Csv.ParseReadsEveryRendering | frontend/src/lib/csv.ts:5-52 | reading back any rendering RFC 4180 allows gives its rows, in order, without exactly those that are nothing but white space |
| Csv.RowWithTextIsRead | frontend/src/lib/csv.ts:51 | a row with one character that is not white space, in any one cell, is always read back |
| Csv.CsvLineIsRendering | frontend/src/lib/export.ts:11-27 | a written line is one of those renderings |
| Csv.ParseUndoesExport | frontend/src/lib/export.ts:11-52 | parsing an exported file gives back the header and the rows, cell by cell, without exactly those that are nothing but white space |
| Csv.EntriesLookup | frontend/src/lib/csv.ts:55-62 | a record holds, under each trimmed header, the trimmed cell of the last column of that name, and no other key |
| Csv.ColumnsReadBackIff | frontend/src/lib/csv.ts:55-62 | every cell of every row can be read under its header exactly when the trimmed headers are distinct |
| Csv.RecordsUndoExport | frontend/src/lib/csv.ts:55-62 | exporting and reading back as records gives one record per row that is not blank, in order |
| Csv.BlankHeaderIsLost | frontend/src/lib/csv.ts:51-61 | a blank header row disappears; the first row left gives no record and its cells become the names of the rest |
| Csv.RecordsUndoExportIff | frontend/src/lib/csv.ts:55-62 | the records are the exported rows under the exported headers exactly when the header row has text or there is no row to read |
| Tokens.TokenService.IssueToken | backend/internal/service/token_service.go:140-170 | appends one unrevoked token with its parent and family |
| Tokens.TokenService.IssuePair | backend/internal/service/token_service.go:69-71 | a login starts a new family |
| Tokens.TokenService.VerifyRefresh | backend/internal/service/token_service.go:73-94 | unknown, reused, expired or good, as `VerifiedIff` says; only reuse writes, revoking the family |
| Tokens.VerifiedIff | backend/internal/service/token_service.go:73-94 | over all runs: good exactly when the row is unrevoked and expires later than now, expired exactly when it is unrevoked and expires now or earlier, reused exactly when it is revoked |
| Tokens.UnknownIff | backend/internal/service/token_service.go:74-80 | unknown exactly when no row has the hash |
| Tokens.TokenExpiresTtlAfterIssue | backend/internal/service/token_service.go:140-170 | every token was issued by a login or a refresh and expires ttl after it |
| Tokens.RefreshIsWithinTtl | backend/internal/service/token_service.go:73-101 | a refresh that issues a successor came less than ttl after the token it presents was issued |
| Tokens.RefreshRotates | backend/internal/service/token_service.go:89-101 | a good token is revoked and its successor - same user, same family, fresh, expiring ttl later - added; an expired one, or a user who may not go on, changes no row |
| Tokens.ReuseRevokesFamily | backend/internal/service/token_service.go:82-88 | a revoked token revokes what is left of its family and no other row |
| Tokens.LoginOpensFamily | backend/internal/service/token_service.go:69-71 | a login adds the root of a family of its own and changes no row |
| Tokens.LogoutRevokesOne | backend/internal/service/token_service.go:103-112 | a logout revokes the presented token and no other row |
| Tokens.RevokeAllRevokesUser | backend/internal/service/token_service.go:114-116 | revoking everything revokes the unrevoked tokens of that user and no other row |
| Tokens.TokenService.Rotate | backend/internal/service/token_service.go:96-101 | revokes the presented token and issues its child |
| Tokens.TokenService.Refresh | backend/internal/service/token_service.go:73-101 | verify and rotate as one step |
| Tokens.TokenService.Revoke | backend/internal/service/token_service.go:103-112 | a logout revokes the one token presented, if it is known and unrevoked, and no other |
| Tokens.TokenService.RevokeEverything | backend/internal/service/token_service.go:114-116 | revokes every unrevoked token of the user, and no other |
| Tokens.RevokeWhere | backend/internal/repository/refresh_token_repository.go:50-66 | a conditional update: revokes exactly the matching unrevoked rows, keeps the stamp of revoked ones |
| Tokens.RunKeepsChains | backend/internal/service/token_service.go:140-170 | every call keeps families linear |
| Tokens.FamilyIsLinear | backend/internal/service/token_service.go:140-170 | within a family, ancestor means exactly issued earlier, and ancestors are revoked |
| Tokens.FamiliesAreLinearChains | backend/internal/service/token_service.go:73-112 | over all runs: at most one unrevoked token a family, one child a token, every ancestor revoked and of the same user |
| Tokens.RevokedForever | backend/internal/repository/refresh_token_repository.go:50-66 | rows are never removed and a revoked row never changes again |
| Tokens.ReuseKillsFamilyForever | backend/internal/service/token_service.go:73-94 | once a revoked token is presented, no token of its family is ever unrevoked again |
| Tokens.LogoutEndsFamilyIff | backend/internal/service/token_service.go:103-112 | a logout leaves no live token in the family exactly when the presented token was the family's live one or none was left |
| Tokens.LogoutIsFinal | backend/internal/service/token_service.go:103-112 | such a logout is final: no later call brings the session back |
| Tokens.LogoutWithRotatedToken | backend/internal/service/token_service.go:96-112 | a concrete run: logging out with the token of before a refresh leaves the session alive |
| Tokens.RevokeAllIsFinal | backend/internal/service/token_service.go:114-116 | revoking everything of a user ends each of the user's sessions for good |
| Tokens.RotationKeepsChainsIff | backend/internal/service/token_service.go:96-101 | a rotation keeps the chains exactly when the verified token is still the last of its family |
| Tokens.StaleRotationRevivesFamily | backend/internal/service/token_service.go:96-101 | a stale rotation revives a family revoked meanwhile |
| TokenRaces.UninterruptedIsAtomic | backend/internal/service/auth_service.go:302-323 | verify, revoke and issue with nothing in between do what the one-step refresh does |
| TokenRaces.FamiliesStayChainsIff | backend/internal/service/token_service.go:73-101 | in every interleaving all families are linear chains at every moment exactly when each successor issued is that of the last token of its family |
| TokenRaces.TwoRefreshesBranch | backend/internal/service/token_service.go:96-101 | whenever two refreshes verify one token before either rotates, it gets two children, both alive |
| TokenRaces.DeadFamilyStaysDeadIff | backend/internal/service/token_service.go:81-101 | in every interleaving a family without a live token never has one again exactly when no refresh that had verified a token of it issues its successor later |
| TokenRaces.RevocationIsFinalIff | backend/internal/service/token_service.go:81-116 | such a family stays dead in all continuations exactly when no refresh under way holds a token of it |
| Calendar.YearOfIff | backend/internal/service/hrm_leave_service.go:493 | the year of a day is the one whose leave year contains it |
| Calendar.CalendarYearBounds | backend/internal/service/hrm_leave_service.go:557-562 | a leave year runs from the day after the last one to the day before the next |
| Calendar.MonthRangeBounds | backend/internal/service/hrm_payroll_service.go:506-509 | a payroll month starts where the last ended and has the length of its month, leap years included |
| Calendar.MonthsPartitionYear | backend/internal/service/hrm_payroll_service.go:506-509 | every day of a leave year lies in exactly one of the twelve payroll months, any other day in none |
| Calendar.MonthsAreDisjoint | backend/internal/service/hrm_payroll_service.go:506-509 | the payroll windows of different months, of any years, share no day |
| Calendar.DateIsDayCount | backend/internal/service/hrm_payroll_service.go:506-509 | the day number of every date, in one formula over years that start in March and without a table of month lengths |
| Calendar.KnownDays | backend/internal/service/hrm_leave_service.go:557-562 | anchors: known dates have their known weekdays, and leap days are where they should be |
| Shifts.MidnightTestsAgreeIff | backend/internal/entity/hrm_organization.go:61-77 | the two tests for a night shift agree except on shifts that end later in their starting minute |
| Shifts.ScheduledIsClockDistance | backend/internal/entity/hrm_organization.go:67-77 | scheduled minutes are the way round the clock from start to end less the break, never negative |
| Attendance.LatenessIsClockDistance | backend/internal/service/hrm_attendance_service.go:472-494 | lateness is measured round the clock for night shifts, from the start of the day otherwise |
| Attendance.AttendanceService.ClockIn | backend/internal/service/hrm_attendance_service.go:103-155 | the register and the answer after a clock-in, each refusal included |
| Attendance.AttendanceService.ClockOut | backend/internal/service/hrm_attendance_service.go:164-201 | closes the open row or refuses |
| Attendance.AttendanceService.Record | backend/internal/service/hrm_attendance_service.go:211-278 | writes or replaces the row of the date |
| Attendance.AttendanceService.ApplyWorkedTime | backend/internal/service/hrm_attendance_service.go:418-462 | the step-by-step assignments give the derived columns and the status, which `RegisterIsSound` spells out |
| Attendance.AttendanceService.MarkLeave | backend/internal/service/hrm_leave_service.go:435-452 | the day loop of an approved leave, with failing inserts and a failing lookup |
| Attendance.AttendanceService.UpdateRow | backend/internal/repository/hrm_attendance_repository.go:161-185 | changes the one row with that id, keeping its employee and date |
| Attendance.AttendanceService.DeleteRow | backend/internal/service/hrm_attendance_service.go:280-285 | a row stays exactly when it does not have the id; an unknown id is reported and changes nothing |
| Attendance.DeleteFreesOneDay | backend/internal/repository/hrm_attendance_repository.go:187-198 | deleting a row frees its date for its employee and leaves every other date of everyone as it was |
| Attendance.EveryRowHasWriter | backend/internal/service/hrm_attendance_service.go:103-285 | each row of a reachable register is exactly what one call wrote and stood unchanged at every moment since |
| Attendance.RegisterIsSound | backend/internal/service/hrm_attendance_service.go:103-278 | over all calls, with rosters and rules changing freely: one row per employee and date, and each row tells the call that wrote it - day, punches, lateness, worked minutes as whole minutes less the break, early leave and overtime against the schedule, half day, absent, late or present by the worked minutes, an explicit status first - under that call's own shift and rules |
| Attendance.CallKeepsOtherRows | backend/internal/service/hrm_attendance_service.go:103-278 | no call but a deletion removes a row, and none changes a row of another employee or date |
| Attendance.ClockInAcceptedIff | backend/internal/service/hrm_attendance_service.go:103-121 | a clock-in is accepted exactly for an active employee without a punch on that day |
| Attendance.RecordAcceptedIff | backend/internal/service/hrm_attendance_service.go:211-233 | a manual record is accepted exactly for a known employee, a day that is not in the future unless allowed, and punches in order |
| Attendance.RefusalIsTrue | backend/internal/service/hrm_attendance_service.go:103-233 | each refusal names something that is wrong with the call |
| Attendance.SecondClockInRefused | backend/internal/service/hrm_attendance_service.go:114-121 | a clock-in can be found under its date, and every further one on that date is refused |
| Attendance.LeaveMarksItsDays | backend/internal/service/hrm_leave_service.go:435-452 | after an approval exactly those days have a row that had one, and those of the leave, first to last, that are reached before a failing lookup and can be inserted |
| Attendance.MarkDaysFillGaps | backend/internal/service/hrm_leave_service.go:435-452 | marking a leave keeps every existing row and fills every day of it that had none, unless that insert fails |
| Attendance.ClockOutClosesOpenedDayIff | backend/internal/service/hrm_attendance_service.go:353-379 | a clock-out closes the row its clock-in opened exactly on the same date, or on the next while that holds no open row |
| Leave.CountLeaveDays | backend/internal/service/hrm_leave_service.go:537-550 | the loop counts exactly the elements of the set of rostered days of the range, or half a day |
| Leave.RoundDaysExactIff | backend/internal/service/hrm_leave_service.go:569-571 | rounding changes nothing exactly on amounts of two decimals |
| Leave.LeaveDaysFitRange | backend/internal/service/hrm_leave_service.go:537-550 | a request takes no more days than its range has, in halves |
| Leave.ApprovedDaysAfterUpdate | backend/internal/repository/hrm_leave_repository.go:311-327 | updating one request moves the total by the difference of its contributions |
| Leave.LeaveService.AssertBalance | backend/internal/service/hrm_leave_service.go:485-512 | refuses exactly when the quota of the starting year would be exceeded; no quota or negative balances allowed never refuses |
| Leave.LeaveService.Request | backend/internal/service/hrm_leave_service.go:198-267 | appends the pending request or reports the first failing check |
| Leave.LeaveService.Decide | backend/internal/service/hrm_leave_service.go:386-423 | only a pending request is decided; an approval checks type and balance again |
| Leave.LeaveService.Approve | backend/internal/service/hrm_leave_service.go:276-286 | a granted request is marked on the register, a refused one leaves both tables alone |
| Leave.LeaveService.Reject | backend/internal/service/hrm_leave_service.go:288-296 | a rejection needs no balance |
| Leave.LeaveService.Cancel | backend/internal/service/hrm_leave_service.go:304-318 | only an undecided request can be withdrawn |
| Leave.LeaveService.Balances | backend/internal/service/hrm_leave_service.go:328-377 | one line for each active type: entitled, taken, pending out of the limited listing, and remaining |
| Leave.LeaveService.SumPending | backend/internal/service/hrm_leave_service.go:359-362 | the grouping loop gives every type the days of its requests on the page |
| LeaveSafety.FiledIff | backend/internal/service/hrm_leave_service.go:198-267 | an application is filed exactly when it is well formed, keeps the rules, and shares no day with a live request of the employee |
| LeaveSafety.FiledRequestIs | backend/internal/service/hrm_leave_service.go:198-267 | a filed request is the application as made: its employee, type and two calendar days, half a day or the days the employee is on, pending |
| LeaveSafety.RefusalIsTrue | backend/internal/service/hrm_leave_service.go:198-263 | each refusal of an application names something that is wrong with it |
| LeaveSafety.DecisionIs | backend/internal/service/hrm_leave_service.go:276-423 | a decision changes exactly the one pending request, to its status and with its review; an approval also needs the type and the balance |
| LeaveSafety.DecisionRefusalIsTrue | backend/internal/service/hrm_leave_service.go:386-423 | each refusal of a decision names what is wrong |
| LeaveSafety.ExceedsBalanceIff | backend/internal/service/hrm_leave_service.go:485-512 | the balance check refuses exactly when there is a quota, negative balances are not allowed, and the year's approved days leave less than is asked for |
| LeaveSafety.ApprovedDaysAdds | backend/internal/repository/hrm_leave_repository.go:311-327 | the total counts exactly the approved requests of the employee and types that start in the window |
| LeaveSafety.OverlapIsSharedDay | backend/internal/repository/hrm_leave_repository.go:293-309 | the overlap query is true exactly when some day lies in both ranges |
| LeaveSafety.LiveRangesAreDisjoint | backend/internal/service/hrm_leave_service.go:465-476 | in every reachable state no day lies in two pending or approved requests of an employee |
| LeaveSafety.LiveDaysFitCalendar | backend/internal/service/hrm_leave_service.go:198-267 | summed days never exceed the distinct calendar days covered |
| LeaveSafety.DecisionsAreFinal | backend/internal/service/hrm_leave_service.go:304-318 | what was asked for never changes, and a decided request never changes at all |
| LeaveSafety.QuotaIsNeverOverspent | backend/internal/service/hrm_leave_service.go:386-423 | however many requests were pending together, approved days of a type starting in a year never exceed the largest quota in force |
| LeaveSafety.BalanceShowsWhatIsLeft | backend/internal/service/hrm_leave_service.go:364-376 | the screen shows exactly the days taken and left, and never a negative rest while the quota rule is on |
| LeaveViews.PayrollMonthsAreTheLeaveYear | backend/internal/repository/hrm_leave_repository.go:311-352 | paid plus unpaid days of the twelve payroll months are the approved days of the calendar year |
| LeaveViews.BalanceScreenMatchesPayrollIff | backend/internal/service/hrm_leave_service.go:335-376 | the "taken" column adds up to what payroll sees exactly when no approved request of the year is of an unlisted type |
| LeaveViews.PayslipLeaveColumnsAreExact | backend/internal/service/hrm_payroll_service.go:426-427 | rounding the leave columns of a payslip changes nothing |
| LeaveViews.PageIsCompleteIff | backend/internal/service/hrm_leave_service.go:350-362 | over all runs: the fetched page holds all pending days of every type exactly when at most 200 requests are pending |
| LeaveViews.LineIsCompleteIff | backend/internal/service/hrm_leave_service.go:359-377 | the pending figure of one type's line is complete exactly when no request left out of the page is of that type |
| LeaveViews.PendingColumnIsCompleteIff | backend/internal/service/hrm_leave_service.go:350-384 | over all runs: every line the screen shows has all days that wait exactly when no request left out of the page is of an active type |
| LeaveViews.LinesAre | backend/internal/service/hrm_leave_service.go:364-377 | one line for each active type, in order, with its quota, the days taken, and what is left |
| LeaveRaces.UninterruptedIsAtomic | backend/internal/service/hrm_leave_service.go:386-423 | a call that nothing interrupts between check and write does what the one-step call does |
| LeaveRaces.DecisionsAreFinalIff | backend/internal/service/hrm_leave_service.go:386-423 | in any interleaving every decision is final exactly when no call writes over a request decided after it was read |
| LeaveRaces.CalendarIsSafeIff | backend/internal/service/hrm_leave_service.go:238-263 | without lost decisions, live requests stay disjoint at every moment exactly when none is filed after a clashing one was filed since its check |
| LeaveRaces.QuotaHoldsIff | backend/internal/service/hrm_leave_service.go:395-423 | in any interleaving the approved days of a type stay within a quota at every moment exactly when no approval is written that assertBalance would by then refuse |
| LeaveRaces.InterleavingIsSafeIff | backend/internal/service/hrm_leave_service.go:198-423 | for every interleaving and any quotas: safe calendar, final decisions and quotas kept exactly when no decision is lost, no day booked twice and no approval written that no longer fits |
| LeaveRaces.TwoChecksBookTwice | backend/internal/service/hrm_leave_service.go:238-263 | whenever an application can be filed, two sessions that check it before either writes book the days twice |
| LeaveRaces.ApprovalOverridesWithdrawal | backend/internal/service/hrm_leave_service.go:304-423 | a request withdrawn between check and write of its approval ends up approved |
| LeaveRaces.TwoApprovalsOverspendIff | backend/internal/service/hrm_leave_service.go:395-423 | whenever two approvals check before either writes, both count, and the second write overspends exactly when the quota does not hold both |
| LeaveRaces.QuotaIsOverspent | backend/internal/service/hrm_leave_service.go:485-512 | a concrete interleaving from the empty table that ends with twice the quota taken |
| PayrollInputs.AbsencesAddUp | backend/internal/repository/hrm_attendance_repository.go:207-235 | the absent days of the summary are the absences of the single days |
| PayrollInputs.PayableCounts | backend/internal/repository/hrm_attendance_repository.go:207-235 | payroll reads present and late rows as a day, half days as half, absences as absent days, the sum of the overtime, and paid and unpaid leave apart |
| PayrollInputs.PortionsAddUp | backend/internal/service/hrm_leave_service.go:537-550 | the parts of days a request takes add up to the days stored on it |
| PayrollInputs.UnpaidDaysAddUp | backend/internal/service/hrm_payroll_service.go:439-446 | the unpaid days of a payslip are the sum of the deductions of the single days |
| PayrollInputs.ReachableUnpaidDaysAddUp | backend/internal/service/hrm_payroll_service.go:150-181 | so in every reachable state, for some roster of each request |
| PayrollInputs.AbsenceChargedOnce | backend/internal/repository/hrm_attendance_repository.go:207-235 | of all payslips of different months, each computed at its own moment, at most one charges a day as an absence |
| PayrollInputs.LeaveChargedOnce | backend/internal/repository/hrm_leave_repository.go:329-352 | ... and together they charge at most one day of leave for it, also when leave runs over the end of a month |
| PayrollInputs.DayDeductedTwiceIff | backend/internal/service/hrm_payroll_service.go:150-181 | over all histories and all payslips of different months: together they deduct more than one day for a day exactly when one charges it as an absence and one, the same or another, as unpaid leave |
| PayrollInputs.RecordedAbsenceIsCharged | backend/internal/service/hrm_attendance_service.go:211-278 | an absence recorded by hand is charged by the payslip of its month, on-leave row or not |
| PayrollInputs.AbsenceOnLeaveDeductedTwice | backend/internal/service/hrm_attendance_service.go:211-278 | recording an absence by hand on a day some payslip charges as leave makes the payslips deduct it twice, in whichever months |
| PayrollInputs.DeductedInTwoMonths | backend/internal/service/hrm_payroll_service.go:150-181 | a concrete history, for every year: January's payslip deducts 1 February as leave and February's deducts it again as an absence |
| Payroll.ResolvedRun | backend/internal/service/hrm_payroll_service.go:205-239 | a success is a draft of that period holding this computation's rules; a failure means the period's run is no longer a draft |
| Payroll.PayrollService.Retotal | backend/internal/service/hrm_payroll_service.go:466-475 | gross, deductions and floored net from the components |
| Payroll.PayrollService.ComputePayslip | backend/internal/service/hrm_payroll_service.go:407-459 | the assignments compute the payslip of the salary rules |
| Payroll.PayrollService.ResolveRun | backend/internal/service/hrm_payroll_service.go:205-239 | the draft of the period with its rules and notes replaced in memory, a new draft, or the refusal of a finalised run |
| Payroll.PayrollService.Generate | backend/internal/service/hrm_payroll_service.go:120-198 | the books and the answer after generating, each refusal included |
| Payroll.PayrollService.ReplacePayslips | backend/internal/repository/hrm_payroll_repository.go:158-172 | the run's payslips are exactly the new ones, other runs keep theirs |
| Payroll.PayrollService.Transition | backend/internal/service/hrm_payroll_service.go:255-297 | finalize from draft with payslips, pay from finalized; the payslips move with the run |
| Payroll.PayrollService.DeleteRun | backend/internal/service/hrm_payroll_service.go:303-316 | only a draft goes, and its payslips with it |
| Payroll.PayrollService.AdjustPayslip | backend/internal/service/hrm_payroll_service.go:343-384 | sums the lines by kind in a loop, retotals and replaces the lines of a draft payslip |
| PayrollSafety.ReachablePayslipsAddUp | backend/internal/service/hrm_payroll_service.go:466-475 | every reachable payslip satisfies the gross, deduction and net equations, its ad-hoc columns are the sums of its current lines, and its status and period are its run's |
| PayrollSafety.OneRunPerPeriod | backend/internal/repository/hrm_payroll_repository.go:105-120 | never two runs of a business for a month, nor two payslips of an employee in a run |
| PayrollSafety.OtherBusinessesUntouched | backend/internal/repository/hrm_payroll_repository.go:122-172 | calls of other businesses change neither a business's payslips nor its runs |
| PayrollSafety.StatusesOnlyAdvance | backend/internal/service/hrm_payroll_service.go:255-316 | a run only moves draft, finalized, paid and keeps its first rules and notes; only a draft disappears, for good |
| PayrollSafety.FinalizedPayslipsNeverChange | backend/internal/service/hrm_payroll_service.go:120-384 | once finalised, no sequence of calls changes the run's payslips: same employees, money, days and lines |
| PayrollSafety.GenerateReplacesWholesale | backend/internal/repository/hrm_payroll_repository.go:158-172 | regenerating a draft leaves exactly the new payslips in the run |
| PayrollSafety.GeneratedIff | backend/internal/service/hrm_payroll_service.go:120-198 | payroll is generated exactly for a real month, working days, someone to pay, the period's draft or a new run in the years allowed, no negative amount and nobody twice |
| PayrollSafety.GeneratedBooksAre | backend/internal/service/hrm_payroll_service.go:183-239 | a new run holds period, rules and notes, an old one is not touched; the payslips of other runs stay, beside one for each employee |
| PayrollSafety.GeneratedPayslipIs | backend/internal/service/hrm_payroll_service.go:174-192 | the payslip of each employee is the fresh draft of the period's run, in order, under fresh ids |
| PayrollSafety.TransitionIs | backend/internal/service/hrm_payroll_service.go:255-297 | finalize exactly from a draft with payslips, pay exactly from finalized, by the run's own business; the run gets the status and that stamp, its payslips the status, nothing else changes |
| PayrollSafety.DeletionIs | backend/internal/service/hrm_payroll_service.go:303-316 | exactly a draft of the business goes, with exactly its payslips |
| PayrollSafety.AdjustmentIs | backend/internal/service/hrm_payroll_service.go:343-384 | exactly a draft payslip without negative lines is adjusted; only its lines, the two ad-hoc columns and the totals change |
| PayrollSafety.RefusalIsTrue | backend/internal/service/hrm_payroll_service.go:120-384 | each refusal names something that is wrong with the call |
| PayrollSafety.SnapshotIsCurrentIff | backend/internal/service/hrm_payroll_service.go:183-225 | the stored rules are those of the latest generation exactly when the run is new or its first rules were the same |
| PayrollSafety.HalfFinalizedStillAdjustable | backend/internal/repository/hrm_payroll_repository.go:122-141 | when the payslip statement of a transition fails, the run is finalized and its payslips can still be adjusted |
| PayrollSafety.HalfMoveIsSoundIff | backend/internal/service/hrm_payroll_service.go:279-291 | such half-moved books are sound exactly when the run has no payslips |
| PayrollSafety.ReachableHalfMoveIsUnsound | backend/internal/service/hrm_payroll_service.go:255-297 | in reachable books every run has payslips, so each half finalisation or payment leaves unsound books |
| PayrollSafety.AdjustmentsAbsorb | backend/internal/service/hrm_payroll_service.go:354-368 | an adjustment fully replaces earlier ones |
| PayrollSafety.LinesAreShares | backend/internal/service/hrm_payroll_service.go:415-446 | cross-multiplied: absence is the salary's share of the working days, overtime its share of the working minutes times the multiplier |
| PayrollSafety.FreshLines | backend/internal/service/hrm_payroll_service.go:407-459 | every money line of a fresh payslip at its own rate: both provident shares, the fund contribution, tax, overtime, absence, and their totals |
| PayrollSafety.WhatIsDeducted | backend/internal/service/hrm_payroll_service.go:431-446 | which of absences and unpaid leave are deducted under which rule, and when overtime is paid at all |
| PayrollSafety.FreshColumns | backend/internal/service/hrm_payroll_service.go:418-450 | every day column is its own count, payable days never negative, and the payslip is a draft of its run, period and employee |
| PayrollSafety.FullyUnpaidMonth | backend/internal/service/hrm_payroll_service.go:439-450 | a month of unpaid days costs exactly the salary and pays for no days |
| PayrollSafety.FreshNetWithinTwoCents | backend/internal/service/hrm_payroll_service.go:407-459 | a fresh net is within two cents of the pay without any rounding |
| PayrollRaces.UninterruptedIsAtomic | backend/internal/service/hrm_payroll_service.go:120-384 | a call that nothing interrupts between read and write does what the one-step call does |
| PayrollRaces.FreezeHoldsIff | backend/internal/service/hrm_payroll_service.go:120-384 | in every interleaving what is finalised stays, with the same payslips and a status that never goes back, exactly when no call that found a draft writes after the run was finalised and none moves a paid run back |
| PayrollRaces.LateGenerationReplacesFinalized | backend/internal/service/hrm_payroll_service.go:183-239 | whenever a regeneration has read a draft that is then finalised, it still replaces all the payslips by new drafts |
| PayrollRaces.EveryInterleavingAddsUp | backend/internal/repository/hrm_payroll_repository.go:118-282 | in every interleaving, late writes included: one run for a month, one payslip for an employee in a run, and every payslip adds up |
| PayrollReport.YearTotals | backend/internal/mapper/hrm_report_mapper.go:76-105 | the loop sums every column of the rows |
| PayrollReport.YearTotalsCountEveryPayslipOnce | backend/internal/repository/hrm_report_repository.go:156-177 | each year total is the sum over all payslips of the business and year, each once |
| PayrollReport.YearTotalsAre | backend/internal/mapper/hrm_report_mapper.go:76-105 | over all runs: the printed totals are, figure by figure, the sums over the payslips of the business and year |
| PayrollReport.MonthRowsAre | backend/internal/repository/hrm_report_repository.go:156-177 | a row for exactly the months that have a payslip, in order, with their number and the sums of their figures |
| Search.EscapedSearchIsLiteral | backend/pkg/strutil/strutil.go:35-38 | the escaped pattern of a non-empty term accepts exactly the texts that contain the term |
| Search.EscapedPatternIsWellFormed | backend/internal/repository/hrm_common.go:61-66 | such a pattern never ends in a dangling escape |
| Search.RawSearchFails | backend/pkg/strutil/strutil.go:35-38 | without escaping, every term with a special character accepts a text that does not contain it |
| Search.RawSearchIsLiteralIff | backend/pkg/strutil/strutil.go:35-38 | an unescaped term searches literally exactly when it has no special character |
| EmployeeCodes.EmployeeRepository.TakeLock | backend/internal/repository/hrm_employee_repository.go:314-321 | the lock is taken exactly when no other transaction holds a business that folds to the same key |
| EmployeeCodes.EmployeeRepository.ReadNextCode | backend/internal/repository/hrm_employee_repository.go:330-342 | reads the next code from the committed rows |
| EmployeeCodes.EmployeeRepository.InsertEmployee | backend/internal/service/hrm_employee_service.go:143-164 | the row stays private to its transaction |
| EmployeeCodes.EmployeeRepository.CommitHire | backend/internal/service/hrm_employee_service.go:143-164 | commit publishes the row and frees the lock |
| EmployeeCodes.HighestIsMaximum | backend/internal/repository/hrm_employee_repository.go:330-338 | the query returns the maximum of the numeric codes, deleted rows included |
| EmployeeCodes.ValueOfDigits | backend/internal/repository/hrm_employee_repository.go:342 | printing a number and reading it back gives the number |
| EmployeeCodes.AllocationIsFreshIff | backend/internal/repository/hrm_employee_repository.go:314-343 | the allocated code is new and larger than all exactly when the largest 64-bit number is not taken |
| EmployeeCodes.NoNextCodeIff | backend/internal/repository/hrm_employee_repository.go:330-338 | there is no next code exactly when a number beyond 64 bits is stored |
| EmployeeCodes.FirstCodeIs1001 | backend/internal/repository/hrm_employee_repository.go:314-343 | a business without numeric codes starts at 1001 |
| EmployeeCodes.OneHireAtATime | backend/internal/repository/hrm_employee_repository.go:314-356 | in every interleaving no two sessions of one lock key are past the lock |
| EmployeeCodes.CodesAreUniqueAndIncreasing | backend/internal/repository/hrm_employee_repository.go:314-356 | in every interleaving codes increase in commit order and differ as strings from every code ever stored |
| EmployeeCodes.EveryRowWasHired | backend/internal/service/hrm_employee_service.go:143-164 | in every interleaving each new row was committed by a session that had inserted just that code for that business, and is marked deleted exactly when a deletion of it came later |
| EmployeeCodes.InsertIs | backend/internal/service/hrm_employee_service.go:143-164 | an insert is refused exactly when an employee of the business who is not deleted has the code |
| EmployeeCodes.AllocatedCodeIsNeverTaken | backend/internal/repository/hrm_employee_repository.go:314-343 | in no interleaving is an allocated code refused, unless the largest number is taken |
| EmployeeCodes.UninterruptedHire | backend/internal/service/hrm_employee_service.go:143-164 | a hire that nothing interrupts stores one employee under the next code and gives its lock back |
| EmployeeCodes.RollbackLeavesNothing | backend/internal/repository/hrm_employee_repository.go:314-356 | a rollback leaves no row, session or lock of its own |
| Denylist.MemoryDenylist.Add | backend/internal/service/token_denylist.go:54-60 | writes one expiry and drops only expired ones |
| Denylist.MemoryDenylist.Has | backend/internal/service/token_denylist.go:62-75 | answers from the map and drops only what has expired |
| Denylist.MemoryDenylist.PurgeExpired | backend/internal/service/token_denylist.go:79-86 | keeps exactly the entries that have not expired |
| Denylist.DenylistAnswersLikeLog | backend/internal/service/token_denylist.go:54-86 | under a clock that never goes back, every answer is the one of an unpurged last-write log |
| Denylist.DeniedUntilExpiry | backend/internal/service/token_denylist.go:54-75 | a denied token stays denied exactly until its expiry |
| Denylist.ClockMustNotGoBack | backend/internal/service/token_denylist.go:79-86 | with a clock that goes back the purge forgets a token |
| PermissionCache.AuthorizationService.Resolve | backend/internal/service/authorization_service.go:104-129 | the four steps with nothing in between: a fresh entry, or the tables' answer stored with its expiry |
| PermissionCache.AuthorizationService.Has | backend/internal/service/authorization_service.go:75-82 | membership in the resolved set |
| PermissionCache.AuthorizationService.Invalidate | backend/internal/service/authorization_service.go:84-88 | forgets one user and no other, and stops no resolution in flight |
| PermissionCache.AuthorizationService.Lookup | backend/internal/service/authorization_service.go:131-140 | a fresh entry is answered, anything else opens a resolution |
| PermissionCache.AuthorizationService.LoadRoles | backend/internal/service/authorization_service.go:109-112 | the first query: the roles of that instant, or the resolution ends |
| PermissionCache.AuthorizationService.LoadNames | backend/internal/service/authorization_service.go:114-122 | the second query: the permissions of those roles at its own instant |
| PermissionCache.AuthorizationService.Store | backend/internal/service/authorization_service.go:124-128 | stores and answers what was read, however long ago |
| PermissionCache.UninterruptedResolution | backend/internal/service/authorization_service.go:104-140 | the steps in a row: an unexpired entry is answered and nothing changes; else the granted permissions are answered and cached for ttl, or the database fails and nothing changes |
| PermissionCache.GrantedIff | backend/internal/service/authorization_service.go:109-117 | a permission is granted exactly when some role of the user has it |
| PermissionCache.AnswerComesFromItsReads | backend/internal/service/authorization_service.go:104-140 | in every interleaving an answer is what the tables held at the two queries of one resolution; the lookup comes at most ttl plus the length of that resolution after its first query, with no Invalidate since the store |
| PermissionCache.TornReadIsCurrentIff | backend/internal/service/authorization_service.go:109-117 | the second query gives what is granted then, whatever roles permit, exactly when the user's roles did not change in between |
| PermissionCache.TornAnswerWasNeverGranted | backend/internal/service/authorization_service.go:109-128 | a concrete interleaving whose answer no instant granted |
| PermissionCache.InvalidateMakesAnswersCurrentIff | backend/internal/service/authorization_service.go:84-129 | after Invalidate, all answers about the user in all continuations without table changes are current exactly when no resolution in flight holds anything out of date |
| PermissionCache.OvertakenReadOutlivesInvalidate | backend/internal/service/authorization_service.go:84-128 | a set read before and stored after the Invalidate is answered for a full ttl |
| PermissionCache.ChangeTakesEffectWithinTtl | backend/internal/service/authorization_service.go:124-140 | past ttl after the last store of a set read before the change, every lookup answers the tables as they are, without any Invalidate |
| PermissionCache.OnlyOldFlightsAreStale | backend/internal/service/authorization_service.go:104-129 | only resolutions that had queried before a change ever store an out-of-date set |

## Left out

- IEEE 754: floats are `real`; NaN, infinities, overflow of 64-bit money and the scale of NUMERIC columns are not modelled.
- Two syncs of one order at the same instant: the unique index serialises them; only sequences of transactions are modelled.
- Unit, weighed flag, branch, cashier and other columns that sync copies verbatim.
- OrderSync.OrderDatabase.ApplyDelta: takes the method's documented contract (atomic add, new balance, not found), not the chained database call behind it.
- CartMath.BogoFreesGetOfEveryGroup: buy and get counts are integers; the discount window, minimum spend and usage limits of a campaign are checked elsewhere and not modelled.
- Csv.ParseUndoesExport: cells are strings; number formatting and lone UTF-16 surrogates are not modelled.
- PayrollRaces.FreezeHoldsIff: the reads of a call are one step and its writes another; the two statements of a transition come apart only by failing (`PayrollSafety.HalfMoved`), not by another call between them.
- TokenRaces.FamiliesStayChainsIff: verifying a reused token and revoking its family are one step, and so are a logout's lookup and its revocation.
- Tokens.TokenService.Refresh: bcrypt, SHA-256, JWT signing and the discarded error of a family revocation; hashes are injective and ids fresh.
- EmployeeCodes.OneHireAtATime: the lock key is an arbitrary function of the business id, so the folding of the id's bytes is not modelled; nor is the login user created beside an employee.
- Attendance.RegisterIsSound: one business; instants are wall-clock nanoseconds without time zones or daylight saving; two requests for the same row at once are not modelled, the unique index decides them.
- Leave.LeaveService.Request: one business; one call at a time here, interleaved in `LeaveRaces.dfy`; the reason text, and days beyond NUMERIC(6, 2).
- Leave.LeaveService.Balances: lines come in table order; ids are positions, so requests of one start date list in filing order (reachable requests never tie).
- Payroll.PayrollService.Generate: takes the employees with their summaries as inputs; `PayrollInputs.PayableFor` is how the summaries are made. Late, leave and worked-minute sums, which payroll does not read, are left out of the summary.
- PayrollSafety.FinalizedPayslipsNeverChange: calls follow one another here; `PayrollRaces.dfy` interleaves them.
- Creating, editing and deleting leave types, shifts and settings appear only as environments that change freely between calls.
- The Redis denylist, HTTP handlers, validation tags, migrations, logging, rate limits, React components, printing and the other reports: plumbing, or only easy members.
