/** The three transactions of the ledger service: deposit, withdrawal and
    interest accrual. Each appends one balanced event and then maintains the
    derived tables (share snapshots and tax buckets).

    The current instant is a parameter (`now`): events are stamped with it
    and tax years are the UTC year of it. `date.today()`, the host's local
    date that keys a share snapshot, is a separate parameter (`today`),
    since the host need not run on UTC. The group's active members, which
    come from outside the ledger tables, are a parameter of the accrual. */
module LedgerService {
  import opened Wrappers
  import opened Money
  import opened Calendar
  import opened LedgerModels
  import opened Postings
  import opened LedgerState
  import opened ShareSnapshots
  import opened TaxBuckets
  import opened InterestAllocation

  // ---------------------------------------------------------------------
  // Deposits and withdrawals

  /** The two legs of a movement of `amount` into the pool on the member's
      behalf: pool cash up, the member's principal liability up (more
      negative). A withdrawal is the movement of `-amount`. */
  function MovementEntries(m: MemberId, g: GroupId, amount: Micro): seq<Posting>
  {
    [Posting(PoolCash, Some(m), Some(g), amount), Posting(MemberPrincipal, Some(m), Some(g), -amount)]
  }

  function MovementMeta(m: MemberId, g: GroupId, amount: Micro, action: string): Meta
  {
    map["member_id" := MetaInt(m), "group_id" := MetaInt(g), "amount" := MetaAmount(amount), "action" := MetaText(action)]
  }

  lemma SumPair(p: Posting, q: Posting, sel: Selector)
    ensures Sum([p, q], sel) == (if Selects(sel, p) then p.amount else 0) + (if Selects(sel, q) then q.amount else 0)
  {
    assert [p, q][1..] == [q];
    assert [q][1..] == [];
    assert Sum([q], sel) == (if Selects(sel, q) then q.amount else 0) + Sum([], sel);
  }

  lemma TotalPair(p: Posting, q: Posting)
    ensures Total([p, q]) == p.amount + q.amount
  {
    assert [p, q][1..] == [q];
    assert [q][1..] == [];
    assert Total([q]) == q.amount + Total([]);
  }

  /** What appending a movement event does to every balance. */
  lemma AppendMovement(events: seq<LedgerEvent>, e: LedgerEvent, m: MemberId, g: GroupId, amount: Micro)
    requires e.postings == MovementEntries(m, g, amount)
    ensures Total(e.postings) == 0
    ensures forall n, h :: PrincipalBalance(events + [e], n, h)
                        == PrincipalBalance(events, n, h) - (if n == m && h == g then amount else 0)
    ensures forall h :: GetPoolBalance(events + [e], h) == GetPoolBalance(events, h) + (if h == g then amount else 0)
    ensures forall h :: Balance(events + [e], GroupPrincipalOf(h))
                     == Balance(events, GroupPrincipalOf(h)) - (if h == g then amount else 0)
    ensures forall h :: Balance(events + [e], MemberAccountsOf(h))
                     == Balance(events, MemberAccountsOf(h)) - (if h == g then amount else 0)
    ensures forall n, h :: GetMemberEarnings(events + [e], n, h) == GetMemberEarnings(events, n, h)
    ensures forall h :: Balance(events + [e], ReserveOf(h)) == Balance(events, ReserveOf(h))
  {
    var p := e.postings[0];
    var q := e.postings[1];
    assert e.postings == [p, q];
    TotalPair(p, q);
    forall n, h
      ensures PrincipalBalance(events + [e], n, h) == PrincipalBalance(events, n, h) - (if n == m && h == g then amount else 0)
      ensures GetMemberEarnings(events + [e], n, h) == GetMemberEarnings(events, n, h)
    {
      BalanceAppend(events, e, PrincipalOf(n, h));
      SumPair(p, q, PrincipalOf(n, h));
      BalanceAppend(events, e, EarningsOf(n, h));
      SumPair(p, q, EarningsOf(n, h));
    }
    forall h
      ensures GetPoolBalance(events + [e], h) == GetPoolBalance(events, h) + (if h == g then amount else 0)
      ensures Balance(events + [e], GroupPrincipalOf(h)) == Balance(events, GroupPrincipalOf(h)) - (if h == g then amount else 0)
      ensures Balance(events + [e], MemberAccountsOf(h)) == Balance(events, MemberAccountsOf(h)) - (if h == g then amount else 0)
      ensures Balance(events + [e], ReserveOf(h)) == Balance(events, ReserveOf(h))
    {
      BalanceAppend(events, e, PoolOf(h));
      SumPair(p, q, PoolOf(h));
      BalanceAppend(events, e, GroupPrincipalOf(h));
      SumPair(p, q, GroupPrincipalOf(h));
      BalanceAppend(events, e, MemberAccountsOf(h));
      SumPair(p, q, MemberAccountsOf(h));
      BalanceAppend(events, e, ReserveOf(h));
      SumPair(p, q, ReserveOf(h));
    }
  }

  /** The event log after a movement; posting it cannot fail, since its two
      legs cancel. */
  function PostMovement(
    events: seq<LedgerEvent>, kind: EventType, meta: Meta,
    m: MemberId, g: GroupId, amount: Micro, ref: string, createdBy: Option<UserId>, now: Instant)
    : (r: seq<LedgerEvent>)
    ensures r == events + [LedgerEvent(now, kind, ref, meta, Some(g), createdBy, MovementEntries(m, g, amount))]
    ensures Total(r[|events|].postings) == 0
  {
    var header := LedgerEvent(now, kind, ref, meta, Some(g), createdBy, []);
    assert Total(MovementEntries(m, g, amount)) == 0 by {
      AppendMovement(events, header.(postings := MovementEntries(m, g, amount)), m, g, amount);
    }
    PostEntries(events, header, MovementEntries(m, g, amount)).value
  }

  /** `record_deposit`: appends a balanced deposit event, raises the
      member's principal and the group's pool by `amount` (no other balance
      moves), refreshes the member's share snapshot for the host's date
      `today` from the new balances and adds `amount` to this year's
      contributions. No amount is rejected. */
  function RecordDeposit(
    l: Ledger, m: MemberId, g: GroupId, amount: Micro, ref: string, createdBy: Option<UserId>,
    now: Instant, today: Day)
    : (r: Ledger)
    ensures |r.events| == |l.events| + 1 && r.events[..|l.events|] == l.events
    ensures r.events[|l.events|].kind == Deposit && r.events[|l.events|].group == Some(g)
    ensures r.events[|l.events|].ts == now
    ensures r.events[|l.events|].postings == MovementEntries(m, g, amount)
    ensures Total(r.events[|l.events|].postings) == 0
    ensures PrincipalBalance(r.events, m, g) == PrincipalBalance(l.events, m, g) - amount
    ensures forall n, h :: (n, h) != (m, g) ==> PrincipalBalance(r.events, n, h) == PrincipalBalance(l.events, n, h)
    ensures GetPoolBalance(r.events, g) == GetPoolBalance(l.events, g) + amount
    ensures forall h :: h != g ==> GetPoolBalance(r.events, h) == GetPoolBalance(l.events, h)
    ensures forall n, h :: GetMemberEarnings(r.events, n, h) == GetMemberEarnings(l.events, n, h)
    ensures Lookup(r.shares, ShareKey(today, m, g)) == Some(Snapshot(r.events, today, m, g))
    ensures forall k :: k != ShareKey(today, m, g) ==> Lookup(r.shares, k) == Lookup(l.shares, k)
    ensures UniqueShareKeys(l.shares) ==> UniqueShareKeys(r.shares)
    ensures r.buckets.Keys == l.buckets.Keys + {BucketKey(m, g, TaxYearAt(now))}
    ensures r.buckets[BucketKey(m, g, TaxYearAt(now))].contributions
         == BucketOrZero(l.buckets, BucketKey(m, g, TaxYearAt(now))).contributions + amount
    ensures forall k :: k in l.buckets && k != BucketKey(m, g, TaxYearAt(now)) ==> r.buckets[k] == l.buckets[k]
  {
    var events := PostMovement(l.events, Deposit, MovementMeta(m, g, amount, "deposit"), m, g, amount, ref, createdBy, now);
    AppendMovement(l.events, events[|l.events|], m, g, amount);
    assert events[..|l.events|] == l.events;
    var shares := UpdateShareSnapshot(l.shares, events, m, g, today);
    var buckets := UpdateTaxBucketContribution(l.buckets, m, g, amount, now);
    Ledger(events, shares, buckets)
  }

  /** `record_withdrawal`: refused with `InsufficientFunds` exactly when the
      amount exceeds the member's (absolute) principal, leaving the ledger
      as it was; otherwise the mirror image of a deposit, except that the
      withdrawal is added to this year's bucket only if that bucket exists. */
  function RecordWithdrawal(
    l: Ledger, m: MemberId, g: GroupId, amount: Micro, ref: string, createdBy: Option<UserId>,
    now: Instant, today: Day)
    : (r: Result<Ledger, LedgerError>)
    ensures r.Err? <==> amount > GetMemberPrincipal(l.events, m, g)
    ensures r.Err? ==> r.error == InsufficientFunds(amount, GetMemberPrincipal(l.events, m, g))
    ensures r.Ok? ==> |r.value.events| == |l.events| + 1 && r.value.events[..|l.events|] == l.events
    ensures r.Ok? ==> r.value.events[|l.events|].kind == Withdrawal && r.value.events[|l.events|].ts == now
    ensures r.Ok? ==> r.value.events[|l.events|].postings == MovementEntries(m, g, -amount)
    ensures r.Ok? ==> Total(r.value.events[|l.events|].postings) == 0
    ensures r.Ok? ==> PrincipalBalance(r.value.events, m, g) == PrincipalBalance(l.events, m, g) + amount
    ensures r.Ok? ==> forall n, h :: (n, h) != (m, g) ==> PrincipalBalance(r.value.events, n, h) == PrincipalBalance(l.events, n, h)
    ensures r.Ok? ==> GetPoolBalance(r.value.events, g) == GetPoolBalance(l.events, g) - amount
    ensures r.Ok? ==> forall h :: h != g ==> GetPoolBalance(r.value.events, h) == GetPoolBalance(l.events, h)
    ensures r.Ok? ==> forall n, h :: GetMemberEarnings(r.value.events, n, h) == GetMemberEarnings(l.events, n, h)
    ensures r.Ok? ==> Lookup(r.value.shares, ShareKey(today, m, g)) == Some(Snapshot(r.value.events, today, m, g))
    ensures r.Ok? ==> forall k :: k != ShareKey(today, m, g) ==> Lookup(r.value.shares, k) == Lookup(l.shares, k)
    ensures r.Ok? ==> (UniqueShareKeys(l.shares) ==> UniqueShareKeys(r.value.shares))
    ensures r.Ok? ==> r.value.buckets.Keys == l.buckets.Keys
    ensures r.Ok? && BucketKey(m, g, TaxYearAt(now)) in l.buckets ==>
              (r.value.buckets[BucketKey(m, g, TaxYearAt(now))].withdrawals
               == l.buckets[BucketKey(m, g, TaxYearAt(now))].withdrawals + amount)
    ensures r.Ok? ==> forall k :: k in l.buckets && k != BucketKey(m, g, TaxYearAt(now)) ==> r.value.buckets[k] == l.buckets[k]
    ensures r.Ok? ==> forall k :: BucketOrZero(r.value.buckets, k).contributions == BucketOrZero(l.buckets, k).contributions
  {
    var available := GetMemberPrincipal(l.events, m, g);
    if amount > available then Err(InsufficientFunds(amount, available))
    else
      var events := PostMovement(l.events, Withdrawal, MovementMeta(m, g, amount, "withdrawal"), m, g, -amount, ref, createdBy, now);
      AppendMovement(l.events, events[|l.events|], m, g, -amount);
      assert events[..|l.events|] == l.events;
      Ok(Ledger(
        events,
        UpdateShareSnapshot(l.shares, events, m, g, today),
        UpdateTaxBucketWithdrawal(l.buckets, m, g, amount, now)))
  }

  // ---------------------------------------------------------------------
  // Interest accrual

  /** The snapshots an accrual for `accrualDate` allocates by, with the
      snapshot table afterwards. The prior day's rows of the group are used
      when there are any, whichever members they cover; otherwise rows are
      generated for the active `members`, as the code does, from the CURRENT
      balances, whatever was posted after the prior day. */
  function AccrualBasis(l: Ledger, g: GroupId, accrualDate: Day, members: seq<MemberId>)
    : (r: (seq<MemberShare>, seq<MemberShare>))
    ensures forall s :: s in r.1 ==> s.group == g && s.date == accrualDate - 1
    ensures SharesFor(l.shares, g, accrualDate - 1) != [] ==>
              r.0 == l.shares && r.1 == SharesFor(l.shares, g, accrualDate - 1)
    ensures SharesFor(l.shares, g, accrualDate - 1) == [] ==>
              && (forall m :: m in members ==> exists s :: s in r.1 && s.member == m)
              && (forall s :: s in r.1 ==> s.member in members)
              && (forall s :: s in r.1 ==>
                    s.memberPrincipal == GetMemberPrincipal(l.events, s.member, g)
                    && s.poolPrincipal == GetPoolBalance(l.events, g))
    ensures UniqueShareKeys(l.shares) ==> UniqueShareKeys(r.0)
  {
    var prior := accrualDate - 1;
    var existing := SharesFor(l.shares, g, prior);
    if existing != [] then (l.shares, existing)
    else
      var generated := GenerateShareSnapshotsAsWritten(l.events, l.shares, g, prior, members);
      CoveredByCreated(l.shares, generated.1, g, prior, members);
      generated
  }

  /** The same choice with missing rows generated from the balances at the
      end of the prior day, as a prior-day snapshot means. */
  function AccrualBasisCorrected(l: Ledger, g: GroupId, accrualDate: Day, members: seq<MemberId>)
    : (r: (seq<MemberShare>, seq<MemberShare>))
    ensures forall s :: s in r.1 ==> s.group == g && s.date == accrualDate - 1
    ensures SharesFor(l.shares, g, accrualDate - 1) != [] ==>
              r.0 == l.shares && r.1 == SharesFor(l.shares, g, accrualDate - 1)
    ensures SharesFor(l.shares, g, accrualDate - 1) == [] ==>
              && (forall m :: m in members ==> exists s :: s in r.1 && s.member == m)
              && (forall s :: s in r.1 ==> s.member in members)
              && (forall s :: s in r.1 ==>
                    s.memberPrincipal == GetMemberPrincipal(EventsThrough(l.events, accrualDate - 1), s.member, g)
                    && s.poolPrincipal == GetPoolBalance(EventsThrough(l.events, accrualDate - 1), g))
    ensures UniqueShareKeys(l.shares) ==> UniqueShareKeys(r.0)
  {
    var prior := accrualDate - 1;
    var existing := SharesFor(l.shares, g, prior);
    if existing != [] then (l.shares, existing)
    else
      var generated := GenerateShareSnapshots(l.events, l.shares, g, prior, members);
      CoveredByCreated(l.shares, generated.1, g, prior, members);
      generated
  }

  /** When the prior day has no rows, both readings generate one row per
      listed member, in order: as written from the
      current balances, corrected from those at the end of the prior day. */
  lemma AccrualBasisWhenGenerated(l: Ledger, g: GroupId, accrualDate: Day, members: seq<MemberId>)
    requires forall i, j :: 0 <= i < j < |members| ==> members[i] != members[j]
    requires SharesFor(l.shares, g, accrualDate - 1) == []
    ensures |AccrualBasis(l, g, accrualDate, members).1| == |members|
    ensures forall i :: 0 <= i < |members| ==>
              AccrualBasis(l, g, accrualDate, members).1[i] == Snapshot(l.events, accrualDate - 1, members[i], g)
    ensures |AccrualBasisCorrected(l, g, accrualDate, members).1| == |members|
    ensures forall i :: 0 <= i < |members| ==>
              AccrualBasisCorrected(l, g, accrualDate, members).1[i]
              == Snapshot(EventsThrough(l.events, accrualDate - 1), accrualDate - 1, members[i], g)
  {
    var prior := accrualDate - 1;
    NoSharesIffNoKeys(l.shares, g, prior);
    assert forall m :: m in members ==> Lookup(l.shares, ShareKey(prior, m, g)).None?;
    BackfillAllFresh(l.events, l.shares, g, prior, members);
    BackfillAllFresh(EventsThrough(l.events, prior), l.shares, g, prior, members);
  }

  /** With generated rows for two members, the first is allocated by its own
      snapshot: of the current balances as written, of the prior day's when
      corrected. */
  lemma FirstOfTwoGenerated(l: Ledger, g: GroupId, accrualDate: Day, total: Micro, a: MemberId, b: MemberId)
    requires a != b
    requires SharesFor(l.shares, g, accrualDate - 1) == []
    ensures AllocatedTo(Allocations(AccrualBasis(l, g, accrualDate, [a, b]).1, total), a)
         == Allocate(total, Snapshot(l.events, accrualDate - 1, a, g).share)
    ensures AllocatedTo(Allocations(AccrualBasisCorrected(l, g, accrualDate, [a, b]).1, total), a)
         == Allocate(total, Snapshot(EventsThrough(l.events, accrualDate - 1), accrualDate - 1, a, g).share)
  {
    var prior := accrualDate - 1;
    AccrualBasisWhenGenerated(l, g, accrualDate, [a, b]);
    FirstOfTwoRows(AccrualBasis(l, g, accrualDate, [a, b]).1, total,
                   Snapshot(l.events, prior, a, g), Snapshot(l.events, prior, b, g));
    var basis := EventsThrough(l.events, prior);
    FirstOfTwoRows(AccrualBasisCorrected(l, g, accrualDate, [a, b]).1, total,
                   Snapshot(basis, prior, a, g), Snapshot(basis, prior, b, g));
  }

  function AccrualMeta(g: GroupId, accrualDate: Day, total: Micro, shareCount: nat): Meta
  {
    map["group_id" := MetaInt(g), "accrual_date" := MetaDate(accrualDate), "total_interest" := MetaAmount(total),
        "share_count" := MetaInt(shareCount), "snapshot_date" := MetaDate(accrualDate - 1)]
  }

  /** What one member is credited as taxable interest: each allocation
      rounded to cents, half to even. */
  function RoundedTo(allocs: seq<Allocation>, m: MemberId): Micro
  {
    if |allocs| == 0 then 0
    else (if allocs[0].member == m then BankersRound(allocs[0].amount, 2) else 0) + RoundedTo(allocs[1..], m)
  }

  /** The loop of `update_tax_bucket_interest` calls: each member's bucket
      for the year gains its rounded allocations; contributions and
      withdrawals, and every bucket of another group or year, are untouched. */
  function CreditInterest(
    buckets: map<BucketKey, TaxBucket>, allocs: seq<Allocation>, g: GroupId, year: int, now: Instant)
    : (r: map<BucketKey, TaxBucket>)
    ensures forall m :: BucketOrZero(r, BucketKey(m, g, year)).taxableInterest
                     == BucketOrZero(buckets, BucketKey(m, g, year)).taxableInterest + RoundedTo(allocs, m)
    ensures buckets.Keys <= r.Keys
    ensures forall k :: k in r && k !in buckets ==> k.group == g && k.year == year
    ensures forall k :: k in buckets && (k.group != g || k.year != year) ==> r[k] == buckets[k]
    ensures forall k :: k in r ==>
              BucketOrZero(r, k).contributions == BucketOrZero(buckets, k).contributions
              && BucketOrZero(r, k).withdrawals == BucketOrZero(buckets, k).withdrawals
    decreases |allocs|
  {
    if |allocs| == 0 then buckets
    else
      var a := allocs[0];
      var next := UpdateTaxBucketInterest(buckets, a.member, g, BankersRound(a.amount, 2), year, now);
      CreditInterest(next, allocs[1..], g, year, now)
  }

  /** What appending an accrual event does to every balance. */
  lemma AppendAccrual(events: seq<LedgerEvent>, e: LedgerEvent, allocs: seq<Allocation>, g: GroupId, total: Micro)
    requires e.postings == AccrualEntries(allocs, g, total)
    ensures Total(e.postings) == 0
    ensures Balance(events + [e], InterestIncomeOf(g)) == Balance(events, InterestIncomeOf(g)) - total
    ensures Balance(events + [e], ReserveOf(g)) == Balance(events, ReserveOf(g)) + (total - Allocated(allocs))
    ensures Balance(events + [e], MemberAccountsOf(g)) == Balance(events, MemberAccountsOf(g)) + Allocated(allocs)
    ensures forall m :: GetMemberEarnings(events + [e], m, g) == GetMemberEarnings(events, m, g) + AllocatedTo(allocs, m)
    ensures forall h :: GetPoolBalance(events + [e], h) == GetPoolBalance(events, h)
    ensures forall n, h :: PrincipalBalance(events + [e], n, h) == PrincipalBalance(events, n, h)
    ensures forall h :: Balance(events + [e], GroupPrincipalOf(h)) == Balance(events, GroupPrincipalOf(h))
    ensures forall n, h :: h != g ==> GetMemberEarnings(events + [e], n, h) == GetMemberEarnings(events, n, h)
    ensures forall h :: h != g ==>
              && Balance(events + [e], InterestIncomeOf(h)) == Balance(events, InterestIncomeOf(h))
              && Balance(events + [e], ReserveOf(h)) == Balance(events, ReserveOf(h))
              && Balance(events + [e], MemberAccountsOf(h)) == Balance(events, MemberAccountsOf(h))
  {
    AccrualEntriesBalance(allocs, g, total);
    BalanceAppend(events, e, InterestIncomeOf(g));
    BalanceAppend(events, e, ReserveOf(g));
    BalanceAppend(events, e, MemberAccountsOf(g));
    forall m
      ensures GetMemberEarnings(events + [e], m, g) == GetMemberEarnings(events, m, g) + AllocatedTo(allocs, m)
    {
      BalanceAppend(events, e, EarningsOf(m, g));
      AccrualEntriesEarnings(allocs, g, total, m);
    }
    forall n, h
      ensures PrincipalBalance(events + [e], n, h) == PrincipalBalance(events, n, h)
    {
      AccrualEntriesLeavePrincipal(allocs, g, total, h, n);
      BalanceAppend(events, e, PrincipalOf(n, h));
    }
    forall h
      ensures GetPoolBalance(events + [e], h) == GetPoolBalance(events, h)
      ensures Balance(events + [e], GroupPrincipalOf(h)) == Balance(events, GroupPrincipalOf(h))
    {
      AccrualEntriesLeavePrincipal(allocs, g, total, h, 0);
      BalanceAppend(events, e, PoolOf(h));
      BalanceAppend(events, e, GroupPrincipalOf(h));
    }
    forall n, h | h != g
      ensures GetMemberEarnings(events + [e], n, h) == GetMemberEarnings(events, n, h)
    {
      AccrualEntriesStayInGroup(allocs, g, total, EarningsOf(n, h));
      BalanceAppend(events, e, EarningsOf(n, h));
    }
    forall h | h != g
      ensures Balance(events + [e], InterestIncomeOf(h)) == Balance(events, InterestIncomeOf(h))
      ensures Balance(events + [e], ReserveOf(h)) == Balance(events, ReserveOf(h))
      ensures Balance(events + [e], MemberAccountsOf(h)) == Balance(events, MemberAccountsOf(h))
    {
      AccrualEntriesStayInGroup(allocs, g, total, InterestIncomeOf(h));
      AccrualEntriesStayInGroup(allocs, g, total, ReserveOf(h));
      AccrualEntriesStayInGroup(allocs, g, total, MemberAccountsOf(h));
      BalanceAppend(events, e, InterestIncomeOf(h));
      BalanceAppend(events, e, ReserveOf(h));
      BalanceAppend(events, e, MemberAccountsOf(h));
    }
  }

  /** The allocations an accrual posts. */
  function AccrualAllocations(l: Ledger, g: GroupId, accrualDate: Day, total: Micro, members: seq<MemberId>)
    : seq<Allocation>
  {
    Allocations(AccrualBasis(l, g, accrualDate, members).1, total)
  }

  /** The allocations the corrected accrual posts. */
  function AccrualAllocationsCorrected(l: Ledger, g: GroupId, accrualDate: Day, total: Micro, members: seq<MemberId>)
    : seq<Allocation>
  {
    Allocations(AccrualBasisCorrected(l, g, accrualDate, members).1, total)
  }

  /** The body of `accrue_interest` once its snapshot rows `basis.1` and the
      table `basis.0` are chosen: one balanced accrual event, and each
      allocation, rounded to cents, added to the member's taxable interest
      for the accrual date's year. */
  function PostAccrual(
    l: Ledger, basis: (seq<MemberShare>, seq<MemberShare>), g: GroupId, accrualDate: Day, total: Micro,
    ref: string, now: Instant)
    : (r: Ledger)
    ensures |r.events| == |l.events| + 1 && r.events[..|l.events|] == l.events
    ensures r.events[|l.events|].kind == InterestAccrual && r.events[|l.events|].group == Some(g)
    ensures r.events[|l.events|].ts == now && r.events[|l.events|].ref == ref
    ensures r.events[|l.events|].postings == AccrualEntries(Allocations(basis.1, total), g, total)
    ensures Total(r.events[|l.events|].postings) == 0
    ensures r.shares == basis.0
    ensures Balance(r.events, InterestIncomeOf(g)) == Balance(l.events, InterestIncomeOf(g)) - total
    ensures Balance(r.events, ReserveOf(g))
         == Balance(l.events, ReserveOf(g)) + (total - Allocated(Allocations(basis.1, total)))
    ensures Balance(r.events, MemberAccountsOf(g))
         == Balance(l.events, MemberAccountsOf(g)) + Allocated(Allocations(basis.1, total))
    ensures forall m :: GetMemberEarnings(r.events, m, g)
                     == GetMemberEarnings(l.events, m, g) + AllocatedTo(Allocations(basis.1, total), m)
    ensures forall h :: GetPoolBalance(r.events, h) == GetPoolBalance(l.events, h)
    ensures forall n, h :: PrincipalBalance(r.events, n, h) == PrincipalBalance(l.events, n, h)
    ensures forall h :: Balance(r.events, GroupPrincipalOf(h)) == Balance(l.events, GroupPrincipalOf(h))
    ensures forall n, h :: h != g ==> GetMemberEarnings(r.events, n, h) == GetMemberEarnings(l.events, n, h)
    ensures forall h :: h != g ==>
              && Balance(r.events, InterestIncomeOf(h)) == Balance(l.events, InterestIncomeOf(h))
              && Balance(r.events, ReserveOf(h)) == Balance(l.events, ReserveOf(h))
              && Balance(r.events, MemberAccountsOf(h)) == Balance(l.events, MemberAccountsOf(h))
    ensures forall m :: BucketOrZero(r.buckets, BucketKey(m, g, YearOf(accrualDate))).taxableInterest
                     == BucketOrZero(l.buckets, BucketKey(m, g, YearOf(accrualDate))).taxableInterest
                        + RoundedTo(Allocations(basis.1, total), m)
    ensures forall k :: BucketOrZero(r.buckets, k).contributions == BucketOrZero(l.buckets, k).contributions
    ensures forall k :: BucketOrZero(r.buckets, k).withdrawals == BucketOrZero(l.buckets, k).withdrawals
    ensures l.buckets.Keys <= r.buckets.Keys
    ensures forall k :: k in r.buckets && k !in l.buckets ==> k.group == g && k.year == YearOf(accrualDate)
    ensures forall k :: k in l.buckets && (k.group != g || k.year != YearOf(accrualDate)) ==> r.buckets[k] == l.buckets[k]
  {
    var allocs := Allocations(basis.1, total);
    var entries := AccrualEntries(allocs, g, total);
    var header := LedgerEvent(now, InterestAccrual, ref, AccrualMeta(g, accrualDate, total, |basis.1|), Some(g), None, []);
    AccrualEntriesBalance(allocs, g, total);
    var events := PostEntries(l.events, header, entries).value;
    AppendAccrual(l.events, events[|l.events|], allocs, g, total);
    assert events[..|l.events|] == l.events;
    Ledger(events, basis.0, CreditInterest(l.buckets, allocs, g, YearOf(accrualDate), now))
  }

  /** `accrue_interest`: appends one balanced accrual event charging the
      group's interest income with `total`, crediting each member's earnings
      with its allocations by the prior day's snapshots (generated from the
      current balances when that day has none) and the rounding reserve with
      the remainder; no pool or principal balance moves. Each allocation,
      rounded to cents, is added to the member's taxable interest for the
      accrual date's year. */
  function AccrueInterest(
    l: Ledger, g: GroupId, accrualDate: Day, total: Micro, ref: string, members: seq<MemberId>, now: Instant)
    : (r: Ledger)
    ensures |r.events| == |l.events| + 1 && r.events[..|l.events|] == l.events
    ensures r.events[|l.events|].kind == InterestAccrual && r.events[|l.events|].group == Some(g)
    ensures r.events[|l.events|].ts == now && r.events[|l.events|].ref == ref
    ensures r.events[|l.events|].postings == AccrualEntries(AccrualAllocations(l, g, accrualDate, total, members), g, total)
    ensures Total(r.events[|l.events|].postings) == 0
    ensures r.shares == AccrualBasis(l, g, accrualDate, members).0
    ensures Balance(r.events, InterestIncomeOf(g)) == Balance(l.events, InterestIncomeOf(g)) - total
    ensures Balance(r.events, ReserveOf(g))
         == Balance(l.events, ReserveOf(g)) + (total - Allocated(AccrualAllocations(l, g, accrualDate, total, members)))
    ensures Balance(r.events, MemberAccountsOf(g))
         == Balance(l.events, MemberAccountsOf(g)) + Allocated(AccrualAllocations(l, g, accrualDate, total, members))
    ensures forall m :: GetMemberEarnings(r.events, m, g)
                     == GetMemberEarnings(l.events, m, g) + AllocatedTo(AccrualAllocations(l, g, accrualDate, total, members), m)
    ensures forall h :: GetPoolBalance(r.events, h) == GetPoolBalance(l.events, h)
    ensures forall n, h :: PrincipalBalance(r.events, n, h) == PrincipalBalance(l.events, n, h)
    ensures forall h :: Balance(r.events, GroupPrincipalOf(h)) == Balance(l.events, GroupPrincipalOf(h))
    ensures forall n, h :: h != g ==> GetMemberEarnings(r.events, n, h) == GetMemberEarnings(l.events, n, h)
    ensures forall h :: h != g ==>
              && Balance(r.events, InterestIncomeOf(h)) == Balance(l.events, InterestIncomeOf(h))
              && Balance(r.events, ReserveOf(h)) == Balance(l.events, ReserveOf(h))
              && Balance(r.events, MemberAccountsOf(h)) == Balance(l.events, MemberAccountsOf(h))
    ensures forall m :: BucketOrZero(r.buckets, BucketKey(m, g, YearOf(accrualDate))).taxableInterest
                     == BucketOrZero(l.buckets, BucketKey(m, g, YearOf(accrualDate))).taxableInterest
                        + RoundedTo(AccrualAllocations(l, g, accrualDate, total, members), m)
    ensures forall k :: BucketOrZero(r.buckets, k).contributions == BucketOrZero(l.buckets, k).contributions
    ensures forall k :: BucketOrZero(r.buckets, k).withdrawals == BucketOrZero(l.buckets, k).withdrawals
    ensures l.buckets.Keys <= r.buckets.Keys
    ensures forall k :: k in r.buckets && k !in l.buckets ==> k.group == g && k.year == YearOf(accrualDate)
    ensures forall k :: k in l.buckets && (k.group != g || k.year != YearOf(accrualDate)) ==> r.buckets[k] == l.buckets[k]
  {
    PostAccrual(l, AccrualBasis(l, g, accrualDate, members), g, accrualDate, total, ref, now)
  }

  /** `accrue_interest` allocating by the corrected prior-day rows. */
  function AccrueInterestCorrected(
    l: Ledger, g: GroupId, accrualDate: Day, total: Micro, ref: string, members: seq<MemberId>, now: Instant)
    : (r: Ledger)
    ensures |r.events| == |l.events| + 1 && r.events[..|l.events|] == l.events
    ensures r.events[|l.events|].kind == InterestAccrual && r.events[|l.events|].group == Some(g)
    ensures r.events[|l.events|].ts == now && r.events[|l.events|].ref == ref
    ensures r.events[|l.events|].postings == AccrualEntries(AccrualAllocationsCorrected(l, g, accrualDate, total, members), g, total)
    ensures Total(r.events[|l.events|].postings) == 0
    ensures r.shares == AccrualBasisCorrected(l, g, accrualDate, members).0
    ensures Balance(r.events, InterestIncomeOf(g)) == Balance(l.events, InterestIncomeOf(g)) - total
    ensures Balance(r.events, ReserveOf(g))
         == Balance(l.events, ReserveOf(g)) + (total - Allocated(AccrualAllocationsCorrected(l, g, accrualDate, total, members)))
    ensures Balance(r.events, MemberAccountsOf(g))
         == Balance(l.events, MemberAccountsOf(g)) + Allocated(AccrualAllocationsCorrected(l, g, accrualDate, total, members))
    ensures forall m :: GetMemberEarnings(r.events, m, g)
                     == GetMemberEarnings(l.events, m, g) + AllocatedTo(AccrualAllocationsCorrected(l, g, accrualDate, total, members), m)
    ensures forall h :: GetPoolBalance(r.events, h) == GetPoolBalance(l.events, h)
    ensures forall n, h :: PrincipalBalance(r.events, n, h) == PrincipalBalance(l.events, n, h)
    ensures forall h :: Balance(r.events, GroupPrincipalOf(h)) == Balance(l.events, GroupPrincipalOf(h))
    ensures forall n, h :: h != g ==> GetMemberEarnings(r.events, n, h) == GetMemberEarnings(l.events, n, h)
    ensures forall h :: h != g ==>
              && Balance(r.events, InterestIncomeOf(h)) == Balance(l.events, InterestIncomeOf(h))
              && Balance(r.events, ReserveOf(h)) == Balance(l.events, ReserveOf(h))
              && Balance(r.events, MemberAccountsOf(h)) == Balance(l.events, MemberAccountsOf(h))
    ensures forall m :: BucketOrZero(r.buckets, BucketKey(m, g, YearOf(accrualDate))).taxableInterest
                     == BucketOrZero(l.buckets, BucketKey(m, g, YearOf(accrualDate))).taxableInterest
                        + RoundedTo(AccrualAllocationsCorrected(l, g, accrualDate, total, members), m)
    ensures forall k :: BucketOrZero(r.buckets, k).contributions == BucketOrZero(l.buckets, k).contributions
    ensures forall k :: BucketOrZero(r.buckets, k).withdrawals == BucketOrZero(l.buckets, k).withdrawals
    ensures l.buckets.Keys <= r.buckets.Keys
    ensures forall k :: k in r.buckets && k !in l.buckets ==> k.group == g && k.year == YearOf(accrualDate)
    ensures forall k :: k in l.buckets && (k.group != g || k.year != YearOf(accrualDate)) ==> r.buckets[k] == l.buckets[k]
  {
    PostAccrual(l, AccrualBasisCorrected(l, g, accrualDate, members), g, accrualDate, total, ref, now)
  }

  /** The two accruals differ only in generated rows: they agree when the
      prior day already has rows, and when nothing in the log is dated after
      the prior day. */
  lemma AccrualsAgree(
    l: Ledger, g: GroupId, accrualDate: Day, total: Micro, ref: string, members: seq<MemberId>, now: Instant)
    requires || SharesFor(l.shares, g, accrualDate - 1) != []
             || (forall i :: 0 <= i < |l.events| ==> DayOf(l.events[i].ts) <= accrualDate - 1)
    ensures AccrueInterestCorrected(l, g, accrualDate, total, ref, members, now)
         == AccrueInterest(l, g, accrualDate, total, ref, members, now)
  {
    if SharesFor(l.shares, g, accrualDate - 1) == [] {
      GenerationAgreesWithoutLaterEvents(l.events, l.shares, g, accrualDate - 1, members);
    }
  }
}
