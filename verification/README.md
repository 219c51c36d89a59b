# A verified model of the Tikob savings ledger

This project models the savings pool of the Tikob app in Dafny and proves
properties of the model. The heart of it is the double-entry ledger:

- an append-only log of events, where every event owns postings that must sum to zero;
- deposits, withdrawals and interest accruals as pure transitions on that log;
- the derived tables: daily member-share snapshots and year-to-date tax buckets;
- the balance queries, which are filtered sums over all postings;
- the reconciliation checks;
- the draft-to-final life cycle of tax reports;
- the schema's enumerations, uniqueness keys and standard chart of accounts.

Three small pure cores are modelled beside it:

- XP, levels and contribution streaks;
- the next savings goal and the badge-eligibility rule;
- avatar initials and avatar colour.

How the model represents things:

- **Amounts** are exact integers of micro-units (1e-6, the service's `PRECISION`). They are restricted to multiples of it: the service accepts finer Decimal inputs and only its columns round them (see "## Left out").
- **Shares** are integers of 1e-10, the scale of their `Numeric(18, 10)` column.
- **Rounding.** Both `quantize(PRECISION)` and `bankers_round` are round-half-to-even, stated as a predicate and computed by `Money.DivHalfEven`.
- **The database** is one immutable `LedgerState.Ledger` value. It holds the event log, the snapshot rows (a sequence under the unique key) and the tax buckets (a map keyed by member, group and year).
- **Errors.** Every operation returns a new ledger or a `LedgerError`. An error leaves the old state untouched.
- **The clock.** The current instant is a parameter `now` (whole seconds since the epoch, UTC). It stamps events, and tax years are the civil year of its UTC day. `date.today()` is the host's local date, so it is a separate parameter `today` of deposits and withdrawals. Nothing ties it to `now`; on a UTC host it is `Calendar.DayOf(now)`.
- **Active members.** The group's active members come from outside the ledger tables, so they are a parameter of the accrual.

Modules, in dependency order:

- `Wrappers`: `Option`, `Result` and `Abs`.
- `Money`: half-even division and `bankers_round`.
- `Calendar`: instants, days and years.
- `LedgerModels`: the schema.
- `Postings`: sums, `validate_postings_balance` and `post_entries`.
- `LedgerState`: the ledger value and the balance queries.
- `ShareSnapshots`: `update_share_snapshot` and `generate_share_snapshots`.
- `TaxBuckets`: the three bucket updates.
- `InterestAllocation`: splitting interest by shares, and the accrual's entries.
- `LedgerService`: `record_deposit`, `record_withdrawal` and `accrue_interest`.
- `Reconciliation`: the audit checks.
- `TaxReports`: `finalize_report`.
- `LedgerHistory`: properties of whole histories of service calls.
- `XpService`, `GoalsBadges`, `Avatar`: the three small cores.

Where the code and its own description differ, the model follows the code:

- **Finalising a report.** `finalize_report` refuses only a report whose status is already `final`. A `corrected` report is finalised like a draft.
- **No positivity check.** No operation checks that an amount is positive. Deposits, withdrawals and accruals accept any amount. The history lemmas that need non-negative deposits say so in their `requires`.
- **Prior-day snapshots.** When the day before an accrual has no snapshot rows, `accrue_interest` generates them from the balances at the moment of the call, not from those at the end of that day. `LedgerService.AccrueInterest` does the same. A corrected `LedgerService.AccrueInterestCorrected` sits beside it; see "## Findings".
- **Pool check after interest.** The pool-equals-members check is not an invariant of the ledger. It holds for histories of deposits and withdrawals only (`LedgerHistory.MovementHistoriesReconcile`). An accrual moves it by exactly `2 * allocated - total` (`LedgerHistory.AccrualShiftsPoolCheck`). Interest is credited to members without any cash entering the pool, and the check adds positive earnings to negative principal before taking the absolute value.

## Model

| member | source | states |
|---|---|---|
| Money.DivHalfEven | app/ledger_service.py:205 | the quotient is the nearest integer to n/d, an exact tie going to the even neighbour |
| Money.HalfEvenQuotientUnique | app/ledger_service.py:25-28 | only one integer is the half-even rounding of a quotient, so the contract pins the result down |
| Money.DivHalfEvenExact | app/ledger_service.py:205 | an exact quotient is returned unrounded |
| Money.DivHalfEvenNegate | app/ledger_service.py:25-28 | rounding is symmetric about zero (-2.5 goes to -2 as 2.5 goes to 2) |
| Money.HalfEvenQuotientOrder | app/ledger_service.py:205 | half-even roundings keep the order of the quotients they round |
| Money.DivHalfEvenMonotone | app/ledger_service.py:205 | a larger quotient never rounds to a smaller integer |
| Money.Quantum | app/ledger_service.py:27 | the quantum 10^-places is a positive divisor of one unit; places <= 0 quantizes to whole units |
| Money.BankersRound | app/ledger_service.py:25-28 | the result is a multiple of the quantum nearest to x, an exact tie going to the even multiple |
| Money.BankersRoundUnique | app/ledger_service.py:25-28 | any nearest-even multiple of the quantum equals bankers_round |
| Money.BankersRoundNegate | app/tests/test_ledger.py:49-52 | rounding a negated amount negates the rounding |
| Money.BankersRoundIdempotent | app/ledger_service.py:25-28 | rounding an already rounded amount changes nothing |
| Money.BankersRoundExamples | app/tests/test_ledger.py:22-52 | 0.5->0, 1.5->2, 2.5->2, 3.5->4, -1.5->-2, -2.5->-2, 1.225->1.22, 1.235->1.24, 123.456789->123.4568 at 4 places, and the other listed cases |
| Calendar.DayOf | app/ledger_service.py:54 | the UTC day a timestamp falls on is the one whose 86400-second span contains it |
| Calendar.YearOfExamples | app/ledger_service.py:219 | `date.year` turns over at 1 January, on both sides of the epoch, and 29 February 2024 and 2000 belong to their own years |
| Calendar.WholeDaysBetween | app/xp_service.py:47 | `(later - earlier).days` is the floor of the difference in days |
| LedgerModels.ParseAccountType | app/ledger_models.py:21-26 | a stored account type parses exactly when it is one of asset, liability, equity, income, expense, and prints back unchanged |
| LedgerModels.AccountTypeRoundTrip | app/ledger_models.py:21-26 | every account type's name parses back to that type |
| LedgerModels.ParseEventType | app/ledger_models.py:44-52 | an event type parses exactly when it is one of the seven admitted names, and prints back unchanged |
| LedgerModels.EventTypeRoundTrip | app/ledger_models.py:44-52 | every event type's name parses back to that type |
| LedgerModels.ParseReportType | app/ledger_models.py:117-121 | a report type parses exactly when it is statement, 1099-INT or summary |
| LedgerModels.ParseReportStatus | app/ledger_models.py:122-125 | a report status parses exactly when it is draft, final or corrected |
| LedgerModels.ReportKindsRoundTrip | app/ledger_models.py:109-126 | report types and statuses round-trip through their names, and the default status is draft |
| LedgerModels.StandardChart | app/ledger_models.py:128-136 | the chart has seven distinct accounts, one per account postings can use: pool_cash an asset; member_principal, member_earnings and rounding_reserve liabilities; interest_income and fee_income income; operating_expense an expense |
| LedgerModels.SeedFrom | app/ledger_models.py:140-144 | inserting absent ids in order keeps every existing row and adds exactly the listed ids |
| LedgerModels.SeedAccounts | app/ledger_models.py:138-145 | afterwards every standard id is present, no existing row is overwritten, and each missing standard row is inserted as listed |
| LedgerModels.SeedAccountsIdempotent | app/ledger_models.py:138-145 | seeding twice gives the same table as seeding once |
| Postings.PostEntries | app/ledger_service.py:65-92 | posting succeeds iff the entries sum to zero, appending the event with exactly those entries; otherwise the error carries the nonzero total and nothing is appended |
| Postings.ValidatePostingsBalance | app/ledger_service.py:36-40 | the pairs validate exactly when their debits (the positive amounts) equal their credits (the magnitudes of the negative ones) |
| Postings.PostEntriesAgreesWithValidation | app/ledger_service.py:38-41 | posting succeeds exactly when validate_postings_balance accepts the (account, amount) view of the entries |
| Postings.ValidationIgnoresOrder | app/ledger_service.py:38-41 | validation does not depend on the order of the pairs |
| Postings.ValidationExamples | app/ledger_service.py:38-41 | +100/-100 balances, +100/-99 does not, zeros and the empty list balance |
| Postings.BalanceAppend | app/ledger_service.py:228-238 | appending an event changes any filtered balance by exactly that event's contribution to it |
| Postings.BalanceBySumByEvent | app/ledger_service.py:228-238 | a filtered sum over the whole posting table equals the event-by-event count: each event's own postings, added in log order |
| LedgerState.GetMemberPrincipal | app/ledger_service.py:228-238 | the principal is the absolute value of the signed principal sum; for a liability (sum <= 0) it is its negation |
| LedgerState.GetMemberEarnings | app/ledger_service.py:241-251 | the member's earnings in the group are its `member_earnings` postings there, counted event by event, with no absolute value taken |
| LedgerState.GetPoolBalance | app/ledger_service.py:276-285 | the group's pool is its `pool_cash` postings, whatever member they carry, counted event by event |
| LedgerState.GetMemberPosition | app/ledger_service.py:254-273 | principal, earnings and their total from the queries; the year-to-date figures are the current year's bucket, or zeros without one |
| Reconciliation.VerifyEventBalance | app/ledger_service.py:428-436 | the flag holds iff the event's postings sum to zero; an unknown id reads as balanced with sum 0 |
| Reconciliation.VerifyAllEventsBalance | app/ledger_service.py:439-450 | the list holds exactly the events whose postings sum to nonzero, each with its sum |
| Reconciliation.NoUnbalancedIffAllBalanced | app/ledger_service.py:439-450 | the list is empty iff every event balances |
| Reconciliation.EventCheckAgreesWithList | app/ledger_service.py:428-450 | an event fails its own check iff it appears in the list of unbalanced events |
| Reconciliation.VerifyPoolEqualsMembers | app/ledger_service.py:453-482 | pool cash, the absolute member total and the rounding reserve are the filtered sums; the check passes iff pool - members - reserve is zero |
| Reconciliation.GroupsToCheck | app/ledger_service.py:499-505 | a truthy group id selects that group if it exists and none otherwise; no id (or 0) selects every group |
| Reconciliation.CheckGroups | app/ledger_service.py:504-513 | one result per examined group, each the group's pool check |
| Reconciliation.Violations | app/ledger_service.py:515-518 | a violation is recorded exactly for each examined group that did not balance, with its difference; none iff every group balanced |
| Reconciliation.RunFullReconciliation | app/ledger_service.py:485-525 | every event is counted; the unbalanced events are those of verify_all_events_balance; the groups checked are the selected ones, in order, each with its pool check; a violation is listed exactly for each group that failed; the run passes iff every event balances and every examined group's pool equals its members |
| ShareSnapshots.ShareRatio | app/ledger_service.py:295-298 | the share is principal/pool rounded half-even to 1e-10 when the pool is positive, and 0 otherwise |
| ShareSnapshots.ShareRatioBounds | app/ledger_service.py:295-298 | a member holding part of the pool gets a share in [0, 1]; one holding all of it gets exactly 1 |
| ShareSnapshots.FindShare | app/ledger_service.py:300-304 | the index found is the first row carrying the key; none means no row carries it |
| ShareSnapshots.Lookup | app/ledger_service.py:300-304 | a row is found iff some row carries the key, and the row found carries it |
| ShareSnapshots.UniqueAppend | app/ledger_models.py:80-82 | adding a row whose key is absent keeps the (date, member, group) key unique |
| ShareSnapshots.UpdateShareSnapshot | app/ledger_service.py:288-322 | afterwards today's row of the member is the snapshot of the current balances, every other key's row is unchanged, uniqueness is kept, and at most one row is added |
| ShareSnapshots.SharesFor | app/ledger_service.py:180-183 | the rows of a group and date are exactly those in the table with that group and date |
| ShareSnapshots.Backfill | app/ledger_service.py:331-356 | existing rows are kept and the created rows are appended after them, at most one per listed member |
| ShareSnapshots.BackfillCreatesSnapshots | app/ledger_service.py:332-353 | every created row belongs to a listed member and holds that member's snapshot |
| ShareSnapshots.BackfillCreatesFresh | app/ledger_service.py:339-345 | a row is created only for a key that had none, so an existing snapshot is never duplicated |
| ShareSnapshots.BackfillLookups | app/ledger_service.py:339-356 | existing rows answer as before, and each listed member without a row gets the snapshot |
| ShareSnapshots.BackfillUnique | app/ledger_models.py:80-82 | the loop keeps the snapshot key unique |
| ShareSnapshots.BackfillCovers | app/ledger_service.py:331-356 | afterwards every listed member has a row for the date |
| ShareSnapshots.GenerateShareSnapshotsAsWritten | app/ledger_service.py:325-359 | as written, each created row is the snapshot of the CURRENT balances, whatever the snapshot date; a row is created only for a key the table lacked; created rows are appended, every listed member gets a row, and uniqueness is kept |
| ShareSnapshots.GenerateShareSnapshots | app/ledger_service.py:325-359 | corrected: each created row is the snapshot of the events dated on or before the snapshot date; a row is created only for a key the table lacked; every listed member gets a row; uniqueness is kept |
| ShareSnapshots.EventsThrough | app/ledger_service.py:325 | the ledger as of a day is exactly the events dated on or before it |
| ShareSnapshots.EventsThroughIgnoresLater | app/ledger_service.py:325 | events dated after the day do not change the ledger as of that day |
| ShareSnapshots.GeneratedSnapshotsIgnoreLaterEvents | app/tests/test_ledger.py:345-367 | events dated after the snapshot date do not change the generated rows, so a same-day deposit cannot buy a larger prior-day share |
| ShareSnapshots.EventsThroughAll | app/ledger_service.py:325 | when nothing is dated after the day, the ledger as of that day is the whole log |
| ShareSnapshots.GenerationAgreesWithoutLaterEvents | app/ledger_service.py:325-359 | when no event is dated after the snapshot date, the corrected and the as-written generation agree |
| ShareSnapshots.ShareRatioExamples | app/ledger_service.py:295-298 | 6000 of a 15000 pool is a share of 0.4, and 1000 of 10000 is 0.1 |
| ShareSnapshots.NoSharesIffNoKeys | app/ledger_service.py:180-186 | a group has no rows for a date exactly when no member has a row under that date's key |
| ShareSnapshots.BackfillAllFresh | app/ledger_service.py:331-356 | when the date has no rows, the loop creates one row per distinct listed member, in order, each that member's snapshot |
| ShareSnapshots.CoveredByCreated | app/ledger_service.py:185-186 | when the date had no rows of the group, every listed member is covered by a created row |
| TaxBuckets.TaxYearAtNewYear | app/ledger_service.py:364 | `TaxBuckets.TaxYearAt`, the UTC year of an instant, changes at midnight UTC on 1 January, one second apart, and at the epoch |
| TaxBuckets.UpdateTaxBucketContribution | app/ledger_service.py:362-384 | the current year's bucket exists afterwards, its contributions grow by the amount, its other totals keep their values, and no other bucket changes |
| TaxBuckets.UpdateTaxBucketWithdrawal | app/ledger_service.py:387-398 | an existing current-year bucket's withdrawals grow by the amount; a missing bucket is not created and nothing changes |
| TaxBuckets.UpdateTaxBucketInterest | app/ledger_service.py:401-422 | the given year's bucket exists afterwards, its taxable interest grows by the amount, and no other bucket changes |
| TaxReports.FinalizeReport | app/ledger_service.py:630-643 | a missing id and an already final report are refused; otherwise only that report changes, becoming final with the finalisation time and the same payload and checksum |
| TaxReports.FinalizeTwiceFails | app/ledger_service.py:636-637 | a report just finalised cannot be finalised again |
| TaxReports.NewReportCanBeFinalized | app/ledger_models.py:110 | a report with the default status (draft) can always be finalised |
| InterestAllocation.Allocate | app/ledger_service.py:205 | an allocation is total * share quantized to 1e-6, half to even |
| InterestAllocation.Allocations | app/ledger_service.py:204-207 | one allocation per snapshot, in snapshot order, each for the snapshot's member |
| InterestAllocation.AllocateWholeAndNothing | app/ledger_service.py:205 | a share of 1 allocates the whole amount and a share of 0 nothing |
| InterestAllocation.AllocateExact | app/ledger_service.py:205 | when total * share is a whole number of micro-units the allocation is exact |
| InterestAllocation.AllocateScales | app/tests/test_ledger.py:165-175 | a k-times larger share gets exactly k times the allocation when the smaller one is exact |
| InterestAllocation.AllocationExamples | app/tests/test_ledger.py:165-175 | 1000.00 at shares 0.1 and 0.4 allocates 100 and four times that; a full share allocates everything |
| InterestAllocation.AllocateMonotone | app/ledger_service.py:205 | a larger share of a non-negative amount is never allocated less |
| InterestAllocation.AllocatedToFirstOfTwo | app/ledger_service.py:204-207 | with two snapshots of different members, the first member is allocated exactly by its own share |
| InterestAllocation.AllocateNegate | app/ledger_service.py:205 | allocation is symmetric in the sign of the amount |
| InterestAllocation.RoundingErrorBound | app/ledger_service.py:204-212 | the allocated total misses total * (sum of shares) by at most half a micro-unit per snapshot |
| InterestAllocation.RemainderBound | app/ledger_service.py:212-215 | when the shares sum to exactly 1 the remainder is at most half a micro-unit per snapshot |
| InterestAllocation.AllocationEntries | app/ledger_service.py:209-210 | two entries per allocation, interest income debited without a member and the member's earnings credited |
| InterestAllocation.RemainderEntries | app/ledger_service.py:212-215 | the remainder pair (interest income and rounding reserve) is posted only when the remainder is nonzero |
| InterestAllocation.RemainderEntriesSums | app/ledger_service.py:212-215 | the remainder pair balances, charges interest income with the remainder and credits the reserve with it |
| InterestAllocation.AllocationEntriesSums | app/ledger_service.py:204-210 | the allocation entries balance, charge interest income with the allocated total and credit each member's earnings with its allocations |
| InterestAllocation.AccrualEntriesBalance | app/ledger_service.py:204-217 | the accrual's entries sum to zero, charge interest income with exactly the total, credit the reserve with total minus allocated and the member accounts with the allocated total |
| InterestAllocation.AccrualEntriesEarnings | app/ledger_service.py:210 | each member's earnings grow by exactly its allocations |
| InterestAllocation.AccrualEntriesLeavePrincipal | app/ledger_service.py:204-215 | an accrual posts nothing to any pool or principal account |
| InterestAllocation.AccrualEntriesStayInGroup | app/ledger_service.py:210-215 | every accrual posting is tagged with the accrual's group, so no balance filtered on another group moves |
| LedgerService.AppendMovement | app/ledger_service.py:116-119 | a movement of the amount balances, moves that member's principal and that group's pool by the amount and no other balance |
| LedgerService.PostMovement | app/ledger_service.py:116-123 | posting a movement cannot fail, and the new event balances |
| LedgerService.RecordDeposit | app/ledger_service.py:95-126 | one balanced deposit event is appended; principal and pool grow by the amount and nothing else moves; the snapshot for the host's date is refreshed from the new balances; this year's contributions grow by the amount |
| LedgerService.RecordWithdrawal | app/ledger_service.py:129-164 | refused with InsufficientFunds iff the amount exceeds the principal; otherwise one balanced event, principal and pool shrink by the amount, the snapshot is refreshed, and withdrawals grow only in an existing bucket |
| LedgerService.AccrualBasis | app/ledger_service.py:178-186 | the prior day's rows of the group are used when there are any; otherwise a row for each active member is generated from the CURRENT balances, as the code does, and uniqueness is kept |
| LedgerService.AccrualBasisCorrected | app/ledger_service.py:178-186 | corrected: the same choice, with missing rows generated from the balances at the end of the prior day |
| LedgerService.AccrualBasisWhenGenerated | app/ledger_service.py:185-186 | with no prior-day rows, both readings allocate by one generated row per distinct member, in order: of the current balances as written, of the prior day's when corrected |
| LedgerService.FirstOfTwoGenerated | app/ledger_service.py:185-207 | with generated rows for two members, the first is allocated by its snapshot of the current balances as written, of the prior day's balances when corrected |
| LedgerService.CreditInterest | app/ledger_service.py:219-222 | each member's bucket for the year gains its allocations rounded to cents; contributions, withdrawals and other groups' or years' buckets are untouched |
| LedgerService.AppendAccrual | app/ledger_service.py:204-217 | an accrual event balances, charges interest income with the total, credits members and reserve, moves no pool or principal balance, and leaves every other group's earnings, reserve, income and member accounts alone |
| LedgerService.PostAccrual | app/ledger_service.py:188-225 | for any chosen rows: one balanced accrual event; interest income falls by the total, each member's earnings grow by its allocations, the reserve takes the remainder, no pool or principal moves; taxable interest grows by the cent-rounded allocations in the accrual date's year; other groups' earnings, reserve, income and member accounts are unchanged; the event is stamped `now`; only the accrual group's buckets for that year are created or changed |
| LedgerService.AccrueInterest | app/ledger_service.py:167-225 | as written: one balanced accrual event by the rows of AccrualBasis (generated from current balances when the prior day has none); interest income falls by the total, each member's earnings grow by its allocations, the reserve takes the remainder, no pool or principal moves; taxable interest grows by the cent-rounded allocations in the accrual date's year; other groups' earnings, reserve, income and member accounts are unchanged; the event is stamped `now`; only the accrual group's buckets for that year are created or changed |
| LedgerService.AccrueInterestCorrected | app/ledger_service.py:167-225 | corrected: the same accrual, with every clause of AccrueInterest, by the rows of AccrualBasisCorrected and their allocations |
| LedgerService.AccrualsAgree | app/ledger_service.py:178-186 | the two accruals give the same ledger when the prior day already has rows or nothing is dated after the prior day |
| LedgerHistory.RunAppendsOnly | app/ledger_models.py:31 | whatever the calls, the events already logged stay in place unchanged, and each call adds at most one |
| LedgerHistory.ApplyKeepsEventsBalanced | app/ledger_models.py:55 | no call ever appends an unbalanced event |
| LedgerHistory.RunKeepsEventsBalanced | app/ledger_service.py:439-450 | any history of calls leaves verify_all_events_balance empty |
| LedgerHistory.RunKeepsSharesUnique | app/ledger_models.py:80-82 | every history keeps the snapshot key unique |
| LedgerHistory.SplitOffMember | app/ledger_service.py:457-462 | a group's principal is one member's principal plus everybody else's |
| LedgerHistory.GroupPrincipalNonPositive | app/ledger_service.py:457-464 | when every principal posting names its member and each member's principal sum is at most 0, so is the group's |
| LedgerHistory.EmptyLedgerInvariant | app/ledger_service.py:453-477 | the empty ledger satisfies the deposit/withdrawal invariant |
| LedgerHistory.PoolNonNegative | app/ledger_service.py:276-285 | under the invariant a group's pool cash is never negative |
| LedgerHistory.InvariantReconcilesPool | app/ledger_service.py:453-477 | under the invariant the pool check passes with difference 0 |
| LedgerHistory.MovementKeepsInvariant | app/ledger_service.py:116-119 | appending a movement that leaves the member's principal sum at most 0 keeps the invariant |
| LedgerHistory.DepositKeepsInvariant | app/ledger_service.py:95-126 | a deposit of a non-negative amount keeps the invariant |
| LedgerHistory.WithdrawalKeepsInvariant | app/ledger_service.py:139-157 | a withdrawal, accepted or refused, keeps the invariant, since the funds check stops principal going positive |
| LedgerHistory.RunKeepsInvariant | app/ledger_service.py:95-164 | a history of non-negative deposits and withdrawals keeps the invariant |
| LedgerHistory.MovementHistoriesReconcile | app/ledger_service.py:485-525 | from an empty ledger, every history of non-negative deposits and withdrawals passes the full reconciliation |
| LedgerHistory.AccrualLeavesOtherGroupsCheck | app/ledger_service.py:453-477 | an accrual in one group leaves every other group's pool check, verdict and figures, as it was |
| LedgerHistory.AccrualShiftsPoolCheck | app/ledger_service.py:453-477 | after an accrual on a reconciled group the difference is 2 * allocated - total, so the check passes iff that is zero |
| LedgerHistory.AccrualBreaksPoolCheckExample | app/ledger_service.py:453-477 | a deposit of 100 then interest of 10 gives pool 100, members 90, difference 10: the check fails |
| LedgerHistory.DepositThenWithdraw | app/ledger_service.py:116-157 | withdrawing what was just deposited is accepted and restores principal, pool and earnings exactly |
| LedgerHistory.ContributionsTrackDeposits | app/ledger_service.py:362-384 | a bucket's contributions equal their start value plus the deposits recorded into its year |
| LedgerHistory.EarlyDepositFacts | app/ledger_service.py:228-285 | after deposits of 1000 and 9000 on day 0, member 1's principal sum is -1000, the pool is 10000, and no row exists for day 1 |
| LedgerHistory.LateDepositFacts | app/ledger_service.py:228-285 | after another 5000 for member 1 on day 2, the ledger as of day 1 is the day-0 ledger while the current principal is 6000 and the pool 15000 |
| LedgerHistory.LateDepositSnapshotExample | app/ledger_service.py:325-337 | backfilling day 1 gives member 1 a share of 0.4 as written and 0.1 as corrected |
| LedgerHistory.LateDepositBalances | app/ledger_service.py:228-285 | after the day-2 deposit member 1's principal sum is -6000 and the pool 15000 |
| LedgerHistory.LateDepositHistory | app/ledger_service.py:325 | the ledger as of day 1 is the day-0 ledger, and day 1 has no row for member 1 |
| LedgerHistory.LateDepositNoDayOneRows | app/ledger_service.py:180-186 | no member has a row for day 1 |
| LedgerHistory.ScenarioAllocations | app/ledger_service.py:167-207 | on any ledger without day-1 rows where member 1 holds 6000 of 15000 now and 1000 of 10000 at the end of day 1, accruing 1000 on day 2 allocates it 400 as written and 100 corrected |
| LedgerHistory.LateDepositAccrualExample | app/ledger_service.py:167-207 | accruing 1000 on day 2 of the scenario allocates member 1 400 as written and 100 corrected |
| XpService.LevelFor | app/xp_service.py:17 | `total // 100 + 1` is the level whose 100-XP band contains the total |
| XpService.LevelUnique | app/xp_service.py:17 | a total lies in exactly one level |
| XpService.LevelMonotone | app/xp_service.py:17 | more XP never means a lower level |
| XpService.AwardXp | app/xp_service.py:8-30 | the total grows by exactly the amount, the level is the new total's, leveled_up iff the new level exceeds the stored one, xp_to_next_level is in 1..100 and reaches the next level, and the streak fields are untouched |
| XpService.AwardXpAdditive | app/xp_service.py:16-20 | two awards in a row leave the record of one award of their sum |
| XpService.AwardNeverLowersLevel | app/xp_service.py:16-20 | a non-negative award never leaves the level below the level of the old total |
| XpService.StreakBonus | app/xp_service.py:61 | the bonus is exactly min(2 * streak, 50): twice the streak up to a streak of 25, and 50 from then on |
| XpService.NextStreak | app/xp_service.py:46-54 | a gap of one day increments the streak, a longer gap resets it to 1, no gap keeps it, and no previous contribution sets it to 1 |
| XpService.UpdateStreak | app/xp_service.py:32-66 | a first call creates a one-day streak with no bonus; otherwise the streak follows the day gap, the longest streak keeps up, the bonus is added to the total and the level is not recomputed |
| XpService.DailyContributionsGrowStreak | app/xp_service.py:46-57 | contributing exactly a day apart grows the streak by one per contribution, and the longest streak keeps up |
| XpService.SameDayKeepsStreak | app/xp_service.py:46-62 | contributing again the same day keeps the streak but pays the bonus again |
| XpService.StreakBonusLeavesLevelBehind | app/xp_service.py:61-62 | a bonus can carry the total past a level boundary without changing the stored level; the next award, even of 0, reports a level-up |
| GoalsBadges.FirstAbove | app/utils.py:161-162 | the rung found is on the ladder and above the total; none means no rung is above it |
| GoalsBadges.FirstAboveIsLeast | app/utils.py:161-162 | on an ascending ladder the first rung above the total is the least one above it |
| GoalsBadges.NextGoal | app/utils.py:158-173 | below 10000 the goal is the least rung strictly above the total, and the positive remainder reaches it; from 10000 on it is the total plus 5000 with 5000 remaining |
| GoalsBadges.NextGoalMonotone | app/utils.py:158-167 | a larger total below 10000 never has a nearer goal |
| GoalsBadges.NextGoalExamples | app/utils.py:158-173 | 0 -> 100, 100 -> 250, 9999 -> 10000 with 1 left, 12000 -> 17000 |
| GoalsBadges.BadgesToAward | app/utils.py:54-63 | a badge is returned iff it is in the catalogue, not held, and its total_contributions or group_count criterion is met; other kinds never are |
| GoalsBadges.AwardingIsIdempotent | app/utils.py:54-67 | once the returned badges are recorded, checking again with the same metrics returns nothing |
| GoalsBadges.AwardingIsMonotone | app/utils.py:58-63 | higher metrics keep every badge lower ones would award |
| GoalsBadges.HeldBadgesNeverReturned | app/utils.py:54-56 | a held badge is never returned |
| GoalsBadges.BadgeScenarios | tests/test_badges.py:5-91 | a contribution of 50 earns the badge for 1; the badge for 100 is awarded once and not again after another 50 |
| Avatar.UpperChar | app/avatar_helper.py:13 | ASCII lower-case letters become upper-case and every other character is kept |
| Avatar.Upper | app/avatar_helper.py:13-15 | upper-casing keeps the length and maps each character |
| Avatar.TrimLeft | app/avatar_helper.py:11 | leading whitespace is removed, and only whitespace |
| Avatar.TrimRight | app/avatar_helper.py:11 | trailing whitespace is removed, and only whitespace |
| Avatar.TakeWord | app/avatar_helper.py:11 | the first word is the longest prefix without whitespace |
| Avatar.Words | app/avatar_helper.py:11 | every word of split() is non-empty and holds no whitespace |
| Avatar.NoWordsIffAllSpace | app/avatar_helper.py:11-17 | split() yields no word iff the name is all whitespace |
| Avatar.FirstWordStartsAtFirstNonSpace | app/avatar_helper.py:11-13 | the first word starts at the first non-whitespace character |
| Avatar.WordsSkipLeading | app/avatar_helper.py:11 | leading whitespace does not change the words |
| Avatar.TakeWordBeforeSpace | app/avatar_helper.py:11 | what follows a whitespace does not change the first word |
| Avatar.WordsIgnoreTrailing | app/avatar_helper.py:11 | trailing whitespace does not change the words |
| Avatar.StripLeftKeepsWords | app/avatar_helper.py:11 | stripping on the left does not change the words |
| Avatar.StripRightKeepsWords | app/avatar_helper.py:11 | stripping on the right does not change the words |
| Avatar.StripKeepsWords | app/avatar_helper.py:11 | `strip().split()` has the same words as `split()` |
| Avatar.UserInitials | app/avatar_helper.py:6-17 | None, empty and all-whitespace names give "?"; two or more words give the upper-cased first letters of the first two; one word gives the first two characters of the unstripped name, upper-cased |
| Avatar.InitialsOfBlankNames | app/avatar_helper.py:8-9 | None, "" and "   " give "?" |
| Avatar.JeanPierreFirstWord | app/avatar_helper.py:11 | "jean pierre" splits into "jean" followed by the words of " pierre" |
| Avatar.JeanPierreSecondWord | app/avatar_helper.py:11 | the first word of " pierre" starts with 'p' |
| Avatar.InitialsOfTwoWords | app/avatar_helper.py:12-13 | "jean pierre" gives "JP" |
| Avatar.InitialsKeepLeadingSpace | app/avatar_helper.py:14-15 | " x" gives " X": the one-word case slices the unstripped name |
| Avatar.InitialsOfOneWord | app/avatar_helper.py:14-15 | "marie" gives "MA" |
| Avatar.WordsCount | app/avatar_helper.py:11 | a name with no whitespace after its first character is one word |
| Avatar.AvatarColor | app/avatar_helper.py:19-31 | the colour is a palette entry, the one at the code-point sum mod 25 |
| Avatar.CodePointSumRemove | app/avatar_helper.py:30 | the code-point sum is one character's code plus the sum of the rest |
| Avatar.CodePointSumPermutation | app/avatar_helper.py:30 | rearranging the characters keeps the code-point sum |
| Avatar.PermutationsShareColor | app/avatar_helper.py:30-31 | names that are permutations of each other get the same colour |
| Avatar.PaletteRepeatsAColor | app/avatar_helper.py:21-27 | the 25-entry palette has exactly one repeated colour, #2c3e50 at indices 9 and 22 |

## Left out

- Database sessions, commits, rollbacks and `.query` plumbing are left out. Storage is one immutable value, and an operation that raises returns the error instead of a new state.
- `generate_id` (uuid) is left out. An event's id is its position in the log; snapshot, bucket and report row ids are not modelled.
- `datetime.utcnow()` becomes the parameter `now` and `date.today()` the parameter `today`. `accrual_date` is a day number. The corrected generation dates events by their UTC day.
- Concurrency is not modelled. The withdrawal's check-then-write race has no lock in the code to model.
- `create_event` has no separate member. Its header is built inside each operation and posted by `Postings.PostEntries`.
- `post_entries` adds postings to the session before raising. The model treats the raise as a rollback, so nothing is appended.
- `generate_statement` and `generate_1099_int` are left out: payload assembly, JSON and SHA-256 checksums, and database year extraction. A report's payload and checksum are opaque strings, which finalisation must keep.
- The float conversions in `get_member_position`, in the reconciliation details and in the 1099 box are not modelled. The model keeps exact amounts.
- `get_user_rank` (a float percentile) and `check_challenge_progress` (database-driven) in xp_service.py are left out.
- Utilities outside the core are left out: `convert_currency`, the group CSV report, the motivational quotes and the remaining helpers in utils.py.
- The notification and AI clients, the Flask routes, and the culture and tradition data are left out.
- The group's active members are a parameter of `accrue_interest`. The `Member` table is not part of this model.
- The goal's progress percentage (a float) is not part of `GoalsBadges.Goal`.
- `check_and_award_badges` computes its metrics from the database: the sum of contributions and the count of active memberships. These are parameters here. Badge amounts and contribution totals are compared in micro-units.
- Names are `seq<char>`. Whitespace and upper-casing follow Python for ASCII only; non-ASCII whitespace and case mappings are not modelled.
- `get_avatar_color(None)` raises in the code; its parameter here is a string.
- ShareSnapshots.ShareRatio: the quotient is rounded half-even to the 1e-10 scale of the share column. The column's storage rounding is a property of the database driver and is not modelled, and the 28-digit precision of the Decimal context is not modelled either.
- Money.Micro: amounts finer than 1e-6 are not modelled. `record_deposit`, `record_withdrawal` and `accrue_interest` accept any Decimal (app/ledger_service.py:103, 137, 177), and only the `Numeric(18, 6)` columns round it to six places and bound it to 18 digits (app/ledger_models.py:63, 92-94). So a sub-micro input or remainder, and the column's 18-digit bound, have no counterpart here.
- Calendar.WholeDaysBetween: instants have one-second resolution, where `datetime.utcnow()` carries microseconds. `(now - last).days` (app/xp_service.py:47) is taken here on whole seconds: a gap of 86399.5 s is 0 days in the code, but truncated to 10 s and 86410 s it is 1 day.
- Calendar.YearOf: the civil-from-days year computation is proved only at worked days (`Calendar.YearOfExamples`), not for every day. `TaxBuckets.TaxYearAt` and the year of `accrue_interest` rely on it as a definition.
- LedgerState.GetMemberPosition: states exact amounts, where the code returns floats.
- XpService.UpdateStreak: assumes `longest_streak` defaults to 0 when a record is created. The XP model's declaration is not part of this model.
- Reconciliation.VerifyPoolEqualsMembers: states the check as a definition. It is proved only for histories of deposits and withdrawals (`LedgerHistory.MovementHistoriesReconcile`), not after an accrual, where the code's check does not hold.
- Reconciliation.RunFullReconciliation: the timestamp, the group names and the float details of the report are left out, and a violation is the pair of group and difference rather than its message string.

## Findings

| source | as written | input that shows it | evidently intended | confidence | as-written member | corrected member |
|---|---|---|---|---|---|---|
| app/ledger_service.py:325-337 | `generate_share_snapshots(group, snapshot_date)` fills in the prior day's shares from the CURRENT principal and pool balances, whatever `snapshot_date` is. `accrue_interest` calls it for `accrual_date - 1` when that day has no rows. | Member 1 deposits 1000 and member 2 deposits 9000 on day 0; member 1 deposits 5000 more on day 2; nobody has a row for day 1. Interest of 1000 accrued on day 2 allocates by a day-1 share of 6000/15000 = 0.4, so member 1 gets 400. | The share as of the snapshot date, 1000/10000 = 0.1, so member 1 gets 100, as the D-1 rule and its timing-arbitrage test (app/tests/test_ledger.py:354-367) require | not executed | ShareSnapshots.GenerateShareSnapshotsAsWritten, LedgerService.AccrueInterest, LedgerHistory.LateDepositSnapshotExample, LedgerHistory.LateDepositAccrualExample | ShareSnapshots.GenerateShareSnapshots, ShareSnapshots.GeneratedSnapshotsIgnoreLaterEvents, LedgerService.AccrueInterestCorrected, LedgerService.AccrualsAgree |

`LedgerService.AccrueInterest`, and with it every history in `LedgerHistory`, follows the code. `LedgerService.AccrueInterestCorrected` allocates by rows generated from the events dated on or before the prior day. `LedgerService.AccrualsAgree` shows the two differ only when the prior day has no rows and some event is dated after it.
