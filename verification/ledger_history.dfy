/** Properties of whole histories of service calls: what every sequence of
    deposits, withdrawals and accruals keeps true of the ledger, and what
    only some of them do. */
module LedgerHistory {
  import opened Wrappers
  import opened Money
  import opened Calendar
  import opened LedgerModels
  import opened Postings
  import opened LedgerState
  import opened ShareSnapshots
  import opened TaxBuckets
  import opened InterestAllocation
  import opened LedgerService
  import opened Reconciliation

  // ---------------------------------------------------------------------
  // Histories

  /** One call into the service. */
  datatype Op =
    | DepositOp(member: MemberId, group: GroupId, amount: Micro, ref: string, createdBy: Option<UserId>, now: Instant, today: Day)
    | WithdrawOp(member: MemberId, group: GroupId, amount: Micro, ref: string, createdBy: Option<UserId>, now: Instant, today: Day)
    | AccrueOp(group: GroupId, accrualDate: Day, total: Micro, ref: string, members: seq<MemberId>, now: Instant)

  /** The ledger after one call; a refused withdrawal rolls back and leaves
      the ledger as it was. */
  function Apply(l: Ledger, op: Op): Ledger
  {
    match op
    case DepositOp(m, g, amount, ref, createdBy, now, today) => RecordDeposit(l, m, g, amount, ref, createdBy, now, today)
    case WithdrawOp(m, g, amount, ref, createdBy, now, today) =>
      var w := RecordWithdrawal(l, m, g, amount, ref, createdBy, now, today);
      if w.Ok? then w.value else l
    case AccrueOp(g, accrualDate, total, ref, members, now) => AccrueInterest(l, g, accrualDate, total, ref, members, now)
  }

  /** The ledger after a sequence of calls, in order. */
  function Run(l: Ledger, ops: seq<Op>): Ledger
    decreases |ops|
  {
    if |ops| == 0 then l else Run(Apply(l, ops[0]), ops[1..])
  }

  /** The new log is the old one with one event on the end. */
  lemma Extends(before: seq<LedgerEvent>, after: seq<LedgerEvent>)
    requires |after| == |before| + 1 && after[..|before|] == before
    ensures after == before + [after[|before|]]
  {
  }

  /** The log is append-only: whatever the calls, the events already in it
      stay, in place and unchanged, and each call adds at most one. */
  lemma {:induction false} RunAppendsOnly(l: Ledger, ops: seq<Op>)
    ensures |l.events| <= |Run(l, ops).events| <= |l.events| + |ops|
    ensures Run(l, ops).events[..|l.events|] == l.events
    decreases |ops|
  {
    if |ops| > 0 {
      var next := Apply(l, ops[0]);
      assert |l.events| <= |next.events| <= |l.events| + 1 && next.events[..|l.events|] == l.events;
      RunAppendsOnly(next, ops[1..]);
      var r := Run(next, ops[1..]).events;
      assert r[..|l.events|] == r[..|next.events|][..|l.events|];
    }
  }

  // ---------------------------------------------------------------------
  // Every event balances

  /** A call appends at most one event, and that event balances. */
  lemma {:induction false} ApplyKeepsEventsBalanced(l: Ledger, op: Op)
    requires AllEventsBalanced(l.events)
    ensures AllEventsBalanced(Apply(l, op).events)
  {
    var r := Apply(l, op);
    if r.events != l.events {
      assert |r.events| == |l.events| + 1 && r.events[..|l.events|] == l.events;
      assert Total(r.events[|l.events|].postings) == 0;
      forall i | 0 <= i < |r.events|
        ensures Total(r.events[i].postings) == 0
      {
        if i < |l.events| {
          assert r.events[i] == r.events[..|l.events|][i];
        }
      }
    }
  }

  /** Whatever the calls, `verify_all_events_balance` of a ledger built only
      through the service reports nothing. */
  lemma {:induction false} RunKeepsEventsBalanced(l: Ledger, ops: seq<Op>)
    requires AllEventsBalanced(l.events)
    ensures AllEventsBalanced(Run(l, ops).events)
    ensures VerifyAllEventsBalance(Run(l, ops).events) == []
    decreases |ops|
  {
    if |ops| > 0 {
      ApplyKeepsEventsBalanced(l, ops[0]);
      RunKeepsEventsBalanced(Apply(l, ops[0]), ops[1..]);
    }
    NoUnbalancedIffAllBalanced(Run(l, ops).events);
  }

  /** The unique constraint on snapshots survives every call. */
  lemma {:induction false} RunKeepsSharesUnique(l: Ledger, ops: seq<Op>)
    requires UniqueShareKeys(l.shares)
    ensures UniqueShareKeys(Run(l, ops).shares)
    decreases |ops|
  {
    if |ops| > 0 {
      var next := Apply(l, ops[0]);
      assert UniqueShareKeys(next.shares);
      RunKeepsSharesUnique(next, ops[1..]);
    }
  }

  // ---------------------------------------------------------------------
  // A group's principal is the sum of its members' principals

  /** The postings without those of one member. */
  function Without(ps: seq<Posting>, m: MemberId): (r: seq<Posting>)
    ensures |r| <= |ps|
    ensures forall j :: 0 <= j < |r| ==> r[j] in ps && r[j].member != Some(m)
  {
    if |ps| == 0 then []
    else (if ps[0].member == Some(m) then [] else [ps[0]]) + Without(ps[1..], m)
  }

  lemma {:induction false} WithoutShorter(ps: seq<Posting>, m: MemberId, i: nat)
    requires i < |ps| && ps[i].member == Some(m)
    ensures |Without(ps, m)| < |ps|
    decreases |ps|
  {
    if i > 0 {
      WithoutShorter(ps[1..], m, i - 1);
    }
  }

  /** The group's principal splits into one member's and everybody else's;
      taking that member out leaves the others' principals as they were. */
  lemma {:induction false} SplitOffMember(ps: seq<Posting>, m0: MemberId, h: GroupId)
    ensures Sum(ps, GroupPrincipalOf(h)) == Sum(ps, PrincipalOf(m0, h)) + Sum(Without(ps, m0), GroupPrincipalOf(h))
    ensures Sum(Without(ps, m0), PrincipalOf(m0, h)) == 0
    ensures forall m :: m != m0 ==> Sum(Without(ps, m0), PrincipalOf(m, h)) == Sum(ps, PrincipalOf(m, h))
    decreases |ps|
  {
    if |ps| > 0 {
      var head := if ps[0].member == Some(m0) then [] else [ps[0]];
      var tail := Without(ps[1..], m0);
      SplitOffMember(ps[1..], m0, h);
      assert Without(ps, m0) == head + tail;
      SumConcat(head, tail, GroupPrincipalOf(h));
      SumConcat(head, tail, PrincipalOf(m0, h));
      forall m | m != m0
        ensures Sum(Without(ps, m0), PrincipalOf(m, h)) == Sum(ps, PrincipalOf(m, h))
      {
        SumConcat(head, tail, PrincipalOf(m, h));
      }
    }
  }

  /** When every principal posting of a group names its member and no
      member's principal is positive, the group's principal is not positive
      either. */
  lemma {:induction false} GroupPrincipalNonPositive(ps: seq<Posting>, h: GroupId)
    requires forall i :: 0 <= i < |ps| && Selects(GroupPrincipalOf(h), ps[i]) ==> ps[i].member.Some?
    requires forall m :: Sum(ps, PrincipalOf(m, h)) <= 0
    ensures Sum(ps, GroupPrincipalOf(h)) <= 0
    decreases |ps|
  {
    if i :| 0 <= i < |ps| && Selects(GroupPrincipalOf(h), ps[i]) {
      var m0 := ps[i].member.value;
      var rest := Without(ps, m0);
      SplitOffMember(ps, m0, h);
      WithoutShorter(ps, m0, i);
      forall j | 0 <= j < |rest| && Selects(GroupPrincipalOf(h), rest[j])
        ensures rest[j].member.Some?
      {
        var k :| 0 <= k < |ps| && ps[k] == rest[j];
      }
      forall m
        ensures Sum(rest, PrincipalOf(m, h)) <= 0
      {
        if m != m0 {
          assert Sum(rest, PrincipalOf(m, h)) == Sum(ps, PrincipalOf(m, h));
        }
      }
      GroupPrincipalNonPositive(rest, h);
    } else {
      SumNoneSelected(ps, GroupPrincipalOf(h));
    }
  }

  // ---------------------------------------------------------------------
  // Deposits and withdrawals keep every pool reconciled

  /** What deposits and withdrawals keep true of the ledger: every principal
      posting names its member, no member's principal is positive, each
      group's principal is its pool cash negated, and no group has earnings
      or a rounding reserve. */
  ghost predicate MovementInvariant(events: seq<LedgerEvent>)
  {
    var ps := AllPostings(events);
    && (forall i :: 0 <= i < |ps| && ps[i].account == MemberPrincipal ==> ps[i].member.Some?)
    && (forall m, h :: PrincipalBalance(events, m, h) <= 0)
    && (forall h :: Balance(events, GroupPrincipalOf(h)) == -GetPoolBalance(events, h))
    && (forall h :: Balance(events, MemberAccountsOf(h)) == Balance(events, GroupPrincipalOf(h)))
    && (forall h :: Balance(events, ReserveOf(h)) == 0)
  }

  lemma EmptyLedgerInvariant()
    ensures MovementInvariant(EmptyLedger.events)
  {
  }

  /** Under the invariant a group's pool cash is never negative. */
  lemma {:induction false} PoolNonNegative(events: seq<LedgerEvent>, h: GroupId)
    requires MovementInvariant(events)
    ensures GetPoolBalance(events, h) >= 0
    ensures Balance(events, GroupPrincipalOf(h)) <= 0
  {
    var ps := AllPostings(events);
    forall m
      ensures Sum(ps, PrincipalOf(m, h)) <= 0
    {
      assert PrincipalBalance(events, m, h) <= 0;
    }
    GroupPrincipalNonPositive(ps, h);
  }

  /** Under the invariant `verify_pool_equals_members` passes for every group. */
  lemma {:induction false} InvariantReconcilesPool(events: seq<LedgerEvent>, h: GroupId)
    requires MovementInvariant(events)
    ensures VerifyPoolEqualsMembers(events, h).0
    ensures VerifyPoolEqualsMembers(events, h).1.difference == 0
  {
    PoolNonNegative(events, h);
  }

  /** Appending a movement of `amount` for `(m, g)` keeps the invariant when
      the member's principal stays non-positive. */
  lemma {:induction false} MovementKeepsInvariant(
    events: seq<LedgerEvent>, e: LedgerEvent, m: MemberId, g: GroupId, amount: Micro)
    requires MovementInvariant(events)
    requires e.postings == MovementEntries(m, g, amount)
    requires PrincipalBalance(events, m, g) - amount <= 0
    ensures MovementInvariant(events + [e])
  {
    var after := events + [e];
    MovementNamesMembers(events, e, m, g, amount);
    AppendMovement(events, e, m, g, amount);
    forall n, h
      ensures PrincipalBalance(after, n, h) <= 0
    {
      assert PrincipalBalance(events, n, h) <= 0;
    }
    forall h
      ensures Balance(after, GroupPrincipalOf(h)) == -GetPoolBalance(after, h)
      ensures Balance(after, MemberAccountsOf(h)) == Balance(after, GroupPrincipalOf(h))
      ensures Balance(after, ReserveOf(h)) == 0
    {
      assert Balance(events, GroupPrincipalOf(h)) == -GetPoolBalance(events, h);
      assert Balance(events, MemberAccountsOf(h)) == Balance(events, GroupPrincipalOf(h));
      assert Balance(events, ReserveOf(h)) == 0;
    }
  }

  /** A movement's principal leg names its member, so appending it keeps
      every principal posting attributed. */
  lemma {:induction false} MovementNamesMembers(
    events: seq<LedgerEvent>, e: LedgerEvent, m: MemberId, g: GroupId, amount: Micro)
    requires forall i :: 0 <= i < |AllPostings(events)| && AllPostings(events)[i].account == MemberPrincipal
                         ==> AllPostings(events)[i].member.Some?
    requires e.postings == MovementEntries(m, g, amount)
    ensures forall i :: 0 <= i < |AllPostings(events + [e])| && AllPostings(events + [e])[i].account == MemberPrincipal
                        ==> AllPostings(events + [e])[i].member.Some?
  {
    var after := events + [e];
    assert after[..|events|] == events;
    var ps := AllPostings(after);
    assert ps == AllPostings(events) + e.postings;
    forall i | 0 <= i < |ps| && ps[i].account == MemberPrincipal
      ensures ps[i].member.Some?
    {
      if i >= |AllPostings(events)| {
        assert ps[i] == e.postings[i - |AllPostings(events)|];
      } else {
        assert ps[i] == AllPostings(events)[i];
      }
    }
  }

  /** A deposit of a non-negative amount keeps the invariant. */
  lemma {:induction false} DepositKeepsInvariant(
    l: Ledger, m: MemberId, g: GroupId, amount: Micro, ref: string, createdBy: Option<UserId>, now: Instant, today: Day)
    requires MovementInvariant(l.events)
    requires amount >= 0
    ensures MovementInvariant(RecordDeposit(l, m, g, amount, ref, createdBy, now, today).events)
  {
    var r := RecordDeposit(l, m, g, amount, ref, createdBy, now, today);
    Extends(l.events, r.events);
    assert PrincipalBalance(l.events, m, g) <= 0;
    MovementKeepsInvariant(l.events, r.events[|l.events|], m, g, amount);
  }

  /** An accepted withdrawal keeps the invariant: the balance check stops
      the member's principal from turning positive. */
  lemma {:induction false} WithdrawalKeepsInvariant(
    l: Ledger, m: MemberId, g: GroupId, amount: Micro, ref: string, createdBy: Option<UserId>, now: Instant, today: Day)
    requires MovementInvariant(l.events)
    ensures MovementInvariant(Apply(l, WithdrawOp(m, g, amount, ref, createdBy, now, today)).events)
  {
    var w := RecordWithdrawal(l, m, g, amount, ref, createdBy, now, today);
    if w.Ok? {
      Extends(l.events, w.value.events);
      assert PrincipalBalance(l.events, m, g) <= 0;
      assert amount <= -PrincipalBalance(l.events, m, g);
      MovementKeepsInvariant(l.events, w.value.events[|l.events|], m, g, -amount);
    }
  }

  /** Histories made only of deposits of non-negative amounts and of
      withdrawals. */
  predicate MovementsOnly(ops: seq<Op>)
  {
    forall i :: 0 <= i < |ops| ==> !ops[i].AccrueOp? && (ops[i].DepositOp? ==> ops[i].amount >= 0)
  }

  lemma {:induction false} RunKeepsInvariant(l: Ledger, ops: seq<Op>)
    requires MovementInvariant(l.events)
    requires MovementsOnly(ops)
    ensures MovementInvariant(Run(l, ops).events)
    decreases |ops|
  {
    if |ops| > 0 {
      var op := ops[0];
      if op.DepositOp? {
        DepositKeepsInvariant(l, op.member, op.group, op.amount, op.ref, op.createdBy, op.now, op.today);
      } else {
        WithdrawalKeepsInvariant(l, op.member, op.group, op.amount, op.ref, op.createdBy, op.now, op.today);
      }
      assert MovementsOnly(ops[1..]) by {
        forall i | 0 <= i < |ops[1..]|
          ensures !ops[1..][i].AccrueOp? && (ops[1..][i].DepositOp? ==> ops[1..][i].amount >= 0)
        {
          assert ops[1..][i] == ops[i + 1];
        }
      }
      RunKeepsInvariant(Apply(l, op), ops[1..]);
    }
  }

  /** Starting from an empty ledger, any history of deposits and withdrawals
      passes the full reconciliation, whichever groups it is asked about. */
  lemma MovementHistoriesReconcile(ops: seq<Op>, registry: seq<GroupId>, target: Option<GroupId>)
    requires MovementsOnly(ops)
    ensures RunFullReconciliation(Run(EmptyLedger, ops).events, registry, target).passed
  {
    var events := Run(EmptyLedger, ops).events;
    RunKeepsInvariant(EmptyLedger, ops);
    RunKeepsEventsBalanced(EmptyLedger, ops);
    forall h
      ensures VerifyPoolEqualsMembers(events, h).0
    {
      InvariantReconcilesPool(events, h);
    }
  }

  // ---------------------------------------------------------------------
  // An accrual unsettles the pool check

  /** Interest is credited to members without cash entering the pool, so
      after an accrual on a reconciled group the check's difference is
      twice the allocated amount less the total: it fails unless exactly
      half the interest was allocated. */
  lemma {:induction false} AccrualShiftsPoolCheck(
    l: Ledger, g: GroupId, accrualDate: Day, total: Micro, ref: string, members: seq<MemberId>, now: Instant)
    requires MovementInvariant(l.events)
    requires Allocated(AccrualAllocations(l, g, accrualDate, total, members)) <= GetPoolBalance(l.events, g)
    ensures VerifyPoolEqualsMembers(AccrueInterest(l, g, accrualDate, total, ref, members, now).events, g).1.difference
         == 2 * Allocated(AccrualAllocations(l, g, accrualDate, total, members)) - total
    ensures VerifyPoolEqualsMembers(AccrueInterest(l, g, accrualDate, total, ref, members, now).events, g).0
        <==> 2 * Allocated(AccrualAllocations(l, g, accrualDate, total, members)) == total
  {
    PoolNonNegative(l.events, g);
  }

  /** An accrual posts only to its own group: every other group's pool
      check, verdict and figures, is what it was before. */
  lemma AccrualLeavesOtherGroupsCheck(
    l: Ledger, g: GroupId, accrualDate: Day, total: Micro, ref: string, members: seq<MemberId>, now: Instant,
    h: GroupId)
    requires h != g
    ensures VerifyPoolEqualsMembers(AccrueInterest(l, g, accrualDate, total, ref, members, now).events, h)
         == VerifyPoolEqualsMembers(l.events, h)
  {
    var r := AccrueInterest(l, g, accrualDate, total, ref, members, now).events;
    assert GetPoolBalance(r, h) == GetPoolBalance(l.events, h);
    assert Balance(r, MemberAccountsOf(h)) == Balance(l.events, MemberAccountsOf(h));
    assert Balance(r, ReserveOf(h)) == Balance(l.events, ReserveOf(h));
  }

  /** A member holding the whole pool, accruing interest the day after the
      deposit: the allocation is exact, and the check is off by the whole
      interest. */
  lemma AccrualBreaksPoolCheckExample()
    ensures var l := RecordDeposit(EmptyLedger, 1, 7, 100 * Unit, "dep", None, 0, 0);
      && AccrualAllocations(l, 7, 1, 10 * Unit, [1]) == [Allocation(1, 10 * Unit)]
      && VerifyPoolEqualsMembers(AccrueInterest(l, 7, 1, 10 * Unit, "int", [1], SecondsPerDay).events, 7).1
         == PoolCheck(100 * Unit, 90 * Unit, 0, 10 * Unit)
  {
    var l := RecordDeposit(EmptyLedger, 1, 7, 100 * Unit, "dep", None, 0, 0);
    EmptyLedgerInvariant();
    DepositKeepsInvariant(EmptyLedger, 1, 7, 100 * Unit, "dep", None, 0, 0);
    assert DayOf(0) == 0;
    var row := Snapshot(l.events, 0, 1, 7);
    assert GetPoolBalance(l.events, 7) == 100 * Unit;
    assert GetMemberPrincipal(l.events, 1, 7) == 100 * Unit;
    ShareRatioBounds(100 * Unit, 100 * Unit);
    assert row.share == ShareScale;
    assert SharesFor(l.shares, 7, 0) == [row] by {
      assert Lookup(l.shares, ShareKey(0, 1, 7)) == Some(row);
    }
    assert AccrualBasis(l, 7, 1, [1]).1 == [row];
    AllocateWholeAndNothing(10 * Unit);
    assert Allocations([row], 10 * Unit) == [Allocation(1, 10 * Unit)];
    AccrualShiftsPoolCheck(l, 7, 1, 10 * Unit, "int", [1], SecondsPerDay);
  }

  // ---------------------------------------------------------------------
  // Deposit then withdraw

  /** Withdrawing what was just deposited is always accepted and restores
      every principal, pool and earnings balance. */
  lemma DepositThenWithdraw(
    l: Ledger, m: MemberId, g: GroupId, amount: Micro, ref: string, createdBy: Option<UserId>, now: Instant, today: Day)
    requires PrincipalBalance(l.events, m, g) <= 0
    ensures RecordWithdrawal(RecordDeposit(l, m, g, amount, ref, createdBy, now, today), m, g, amount, ref, createdBy, now, today).Ok?
    ensures var r := RecordWithdrawal(RecordDeposit(l, m, g, amount, ref, createdBy, now, today), m, g, amount, ref, createdBy, now, today).value;
      && |r.events| == |l.events| + 2
      && (forall n, h :: PrincipalBalance(r.events, n, h) == PrincipalBalance(l.events, n, h))
      && (forall h :: GetPoolBalance(r.events, h) == GetPoolBalance(l.events, h))
      && (forall n, h :: GetMemberEarnings(r.events, n, h) == GetMemberEarnings(l.events, n, h))
  {
  }

  // ---------------------------------------------------------------------
  // Contributions add up

  /** The deposits of a history that land in a given bucket. */
  function Contributed(ops: seq<Op>, key: BucketKey): Micro
  {
    if |ops| == 0 then 0
    else
      var op := ops[0];
      (if op.DepositOp? && BucketKey(op.member, op.group, TaxYearAt(op.now)) == key then op.amount else 0)
      + Contributed(ops[1..], key)
  }

  /** A bucket's contributions grow by exactly the deposits recorded into it:
      withdrawals, refused or not, and accruals leave them alone. */
  lemma {:induction false} ContributionsTrackDeposits(l: Ledger, ops: seq<Op>, key: BucketKey)
    ensures BucketOrZero(Run(l, ops).buckets, key).contributions
         == BucketOrZero(l.buckets, key).contributions + Contributed(ops, key)
    decreases |ops|
  {
    if |ops| > 0 {
      var op := ops[0];
      var next := Apply(l, op);
      assert BucketOrZero(next.buckets, key).contributions
          == BucketOrZero(l.buckets, key).contributions
             + (if op.DepositOp? && BucketKey(op.member, op.group, TaxYearAt(op.now)) == key then op.amount else 0) by {
        if op.DepositOp? {
          var k := BucketKey(op.member, op.group, TaxYearAt(op.now));
          if key != k && key !in l.buckets {
            assert key !in next.buckets;
          }
        }
      }
      ContributionsTrackDeposits(next, ops[1..], key);
    }
  }

  // ---------------------------------------------------------------------
  // Backfilled snapshots and later deposits

  /** Member 1 deposits 1000 and member 2 deposits 9000 on day 0. */
  function EarlyDepositLedger(): Ledger
  {
    var l1 := RecordDeposit(EmptyLedger, 1, 7, 1000 * Unit, "a", None, 0, 0);
    RecordDeposit(l1, 2, 7, 9000 * Unit, "b", None, 60, 0)
  }

  /** Then member 1 deposits another 5000 on day 2. Nobody has a row for
      day 1. */
  function LateDepositLedger(): Ledger
  {
    RecordDeposit(EarlyDepositLedger(), 1, 7, 5000 * Unit, "c", None, 2 * SecondsPerDay, 2)
  }

  /** Two deposits by different members into one group of an empty ledger. */
  lemma TwoDepositsFacts(
    m1: MemberId, m2: MemberId, g: GroupId, a1: Micro, a2: Micro, ref1: string, ref2: string,
    t1: Instant, t2: Instant, today: Day, k: ShareKey)
    requires m1 != m2 && k != ShareKey(today, m1, g) && k != ShareKey(today, m2, g)
    ensures var l2 := RecordDeposit(RecordDeposit(EmptyLedger, m1, g, a1, ref1, None, t1, today), m2, g, a2, ref2, None, t2, today);
      && PrincipalBalance(l2.events, m1, g) == -a1
      && GetPoolBalance(l2.events, g) == a1 + a2
      && |l2.events| == 2 && l2.events[0].ts == t1 && l2.events[1].ts == t2
      && Lookup(l2.shares, k).None?
  {
    var l1 := RecordDeposit(EmptyLedger, m1, g, a1, ref1, None, t1, today);
    var l2 := RecordDeposit(l1, m2, g, a2, ref2, None, t2, today);
    assert PrincipalBalance(l1.events, m1, g) == -a1 && GetPoolBalance(l1.events, g) == a1 by {
      assert PrincipalBalance([], m1, g) == 0 && GetPoolBalance([], g) == 0;
    }
    assert Lookup(l1.shares, k).None? by {
      assert Lookup([], k).None?;
    }
    assert l2.events[0] == l1.events[0];
  }

  lemma EarlyDepositFacts()
    ensures var l := EarlyDepositLedger();
      && PrincipalBalance(l.events, 1, 7) == -1000 * Unit
      && GetPoolBalance(l.events, 7) == 10000 * Unit
      && (forall i :: 0 <= i < |l.events| ==> DayOf(l.events[i].ts) <= 1)
      && Lookup(l.shares, ShareKey(1, 1, 7)).None?
  {
    TwoDepositsFacts(1, 2, 7, 1000 * Unit, 9000 * Unit, "a", "b", 0, 60, 0, ShareKey(1, 1, 7));
    assert DayOf(0) == 0 && DayOf(60) == 0;
  }


  lemma LateDepositBalances()
    ensures var l := LateDepositLedger();
      && PrincipalBalance(l.events, 1, 7) == -6000 * Unit
      && GetPoolBalance(l.events, 7) == 15000 * Unit
  {
    EarlyDepositFacts();
  }

  lemma LateDepositHistory()
    ensures var l := LateDepositLedger();
      && EventsThrough(l.events, 1) == EarlyDepositLedger().events
      && Lookup(l.shares, ShareKey(1, 1, 7)).None?
  {
    EarlyDepositFacts();
    assert DayOf(2 * SecondsPerDay) == 2;
    DepositAfterDayKeepsHistory(EarlyDepositLedger(), 1, 7, 5000 * Unit, "c", None, 2 * SecondsPerDay, 2, 1);
  }

  /** A deposit dated after `day` on a ledger whose events all fall on or
      before it leaves the ledger as of `day` equal to the whole old log. */
  lemma DepositAfterDayKeepsHistory(
    l: Ledger, m: MemberId, g: GroupId, amount: Micro, ref: string, createdBy: Option<UserId>,
    now: Instant, today: Day, day: Day)
    requires forall i :: 0 <= i < |l.events| ==> DayOf(l.events[i].ts) <= day
    requires DayOf(now) > day
    ensures EventsThrough(RecordDeposit(l, m, g, amount, ref, createdBy, now, today).events, day) == l.events
  {
    var r := RecordDeposit(l, m, g, amount, ref, createdBy, now, today);
    Extends(l.events, r.events);
    var e := r.events[|l.events|];
    EventsThroughIgnoresLater(l.events, [e], day);
    EventsThroughAll(l.events, day);
  }

  /** After the day-2 deposit the current balances have moved while the
      ledger as of day 1 is the day-0 one, and day 1 still has no row. */
  lemma LateDepositFacts()
    ensures var l := LateDepositLedger();
      && PrincipalBalance(l.events, 1, 7) == -6000 * Unit
      && GetPoolBalance(l.events, 7) == 15000 * Unit
      && EventsThrough(l.events, 1) == EarlyDepositLedger().events
      && Lookup(l.shares, ShareKey(1, 1, 7)).None?
  {
    LateDepositBalances();
    LateDepositHistory();
  }

  /** Backfilling day 1 of that ledger: as written, member 1's row counts
      the day-2 deposit and gives a share of 0.4; at the end of day 1 it held
      1000 of 10000, a share of 0.1. */
  lemma LateDepositSnapshotExample()
    ensures var l := LateDepositLedger();
      && Lookup(GenerateShareSnapshotsAsWritten(l.events, l.shares, 7, 1, [1, 2]).0, ShareKey(1, 1, 7)).Some?
      && Lookup(GenerateShareSnapshotsAsWritten(l.events, l.shares, 7, 1, [1, 2]).0, ShareKey(1, 1, 7)).value.share
         == 4_000_000_000
      && Lookup(GenerateShareSnapshots(l.events, l.shares, 7, 1, [1, 2]).0, ShareKey(1, 1, 7)).Some?
      && Lookup(GenerateShareSnapshots(l.events, l.shares, 7, 1, [1, 2]).0, ShareKey(1, 1, 7)).value.share
         == 1_000_000_000
  {
    var l2 := EarlyDepositLedger();
    var l3 := LateDepositLedger();
    EarlyDepositFacts();
    LateDepositFacts();
    BackfillLookups(l3.events, l3.shares, 7, 1, [1, 2]);
    BackfillLookups(l2.events, l3.shares, 7, 1, [1, 2]);
    assert 4_000_000_000 * (15000 * Unit) == (6000 * Unit) * ShareScale;
    DivHalfEvenExact(4_000_000_000, 15000 * Unit);
    assert 1_000_000_000 * (10000 * Unit) == (1000 * Unit) * ShareScale;
    DivHalfEvenExact(1_000_000_000, 10000 * Unit);
  }

  /** Neither ledger of the scenario has a row for day 1. */
  lemma LateDepositNoDayOneRows()
    ensures forall m :: Lookup(LateDepositLedger().shares, ShareKey(1, m, 7)).None?
  {
    var l1 := RecordDeposit(EmptyLedger, 1, 7, 1000 * Unit, "a", None, 0, 0);
    var l2 := RecordDeposit(l1, 2, 7, 9000 * Unit, "b", None, 60, 0);
    assert forall m :: Lookup(EmptyLedger.shares, ShareKey(1, m, 7)).None?;
    DepositAddsNoRowForDay(EmptyLedger, 1, 7, 1000 * Unit, "a", None, 0, 0, 1);
    DepositAddsNoRowForDay(l1, 2, 7, 9000 * Unit, "b", None, 60, 0, 1);
    DepositAddsNoRowForDay(l2, 1, 7, 5000 * Unit, "c", None, 2 * SecondsPerDay, 2, 1);
  }

  /** A deposit writes only its own day's row, so a day with no rows in a
      group keeps none. */
  lemma DepositAddsNoRowForDay(
    l: Ledger, m: MemberId, g: GroupId, amount: Micro, ref: string, createdBy: Option<UserId>,
    now: Instant, today: Day, day: Day)
    requires day != today
    requires forall n :: Lookup(l.shares, ShareKey(day, n, g)).None?
    ensures forall n :: Lookup(RecordDeposit(l, m, g, amount, ref, createdBy, now, today).shares, ShareKey(day, n, g)).None?
  {
    var r := RecordDeposit(l, m, g, amount, ref, createdBy, now, today);
    forall n
      ensures Lookup(r.shares, ShareKey(day, n, g)).None?
    {
      assert ShareKey(day, n, g) != ShareKey(today, m, g);
      assert Lookup(l.shares, ShareKey(day, n, g)).None?;
    }
  }

  /** Accruing 1000 on day 2 of any ledger shaped like the scenario: no
      row for day 1, member 1 holding 6000 of 15000 now and 1000 of 10000 at
      the end of day 1. */
  lemma ScenarioAllocations(l: Ledger, through: seq<LedgerEvent>)
    requires forall m :: Lookup(l.shares, ShareKey(1, m, 7)).None?
    requires EventsThrough(l.events, 1) == through
    requires PrincipalBalance(l.events, 1, 7) == -6000 * Unit && GetPoolBalance(l.events, 7) == 15000 * Unit
    requires PrincipalBalance(through, 1, 7) == -1000 * Unit && GetPoolBalance(through, 7) == 10000 * Unit
    ensures AllocatedTo(AccrualAllocations(l, 7, 2, 1000 * Unit, [1, 2]), 1) == 400 * Unit
    ensures AllocatedTo(AccrualAllocationsCorrected(l, 7, 2, 1000 * Unit, [1, 2]), 1) == 100 * Unit
  {
    NoSharesIffNoKeys(l.shares, 7, 1);
    FirstOfTwoGenerated(l, 7, 2, 1000 * Unit, 1, 2);
    ShareRatioExamples();
    assert Snapshot(l.events, 1, 1, 7).share == 4_000_000_000;
    assert Snapshot(through, 1, 1, 7).share == 1_000_000_000;
    AllocationExamples();
  }

  /** Accruing 1000 on day 2 of the scenario: as written, member 1 is
      allocated 400 for the deposit it made on day 2; corrected, it is
      allocated 100 for the 1000 of 10000 it held at the end of day 1. */
  lemma LateDepositAccrualExample()
    ensures var l := LateDepositLedger();
      && AllocatedTo(AccrualAllocations(l, 7, 2, 1000 * Unit, [1, 2]), 1) == 400 * Unit
      && AllocatedTo(AccrualAllocationsCorrected(l, 7, 2, 1000 * Unit, [1, 2]), 1) == 100 * Unit
  {
    LateDepositNoDayOneRows();
    LateDepositFacts();
    EarlyDepositFacts();
    ScenarioAllocations(LateDepositLedger(), EarlyDepositLedger().events);
  }
}
