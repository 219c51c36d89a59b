/** Splitting an interest amount across members by their share snapshots,
    and the balanced entries an accrual posts.

    Each member's allocation is `total * share` quantized to the ledger's
    six-digit precision, half to even; whatever the rounded allocations do
    not account for goes to the rounding reserve. */
module InterestAllocation {
  import opened Wrappers
  import opened Money
  import opened LedgerModels
  import opened Postings
  import opened LedgerState

  datatype Allocation = Allocation(member: MemberId, amount: Micro)

  /** `(total_interest * member_share).quantize(PRECISION)`. */
  function Allocate(total: Micro, share: ShareUnits): (a: Micro)
    ensures IsHalfEvenQuotient(total * share, ShareScale, a)
  {
    DivHalfEven(total * share, ShareScale)
  }

  /** The allocations of the loop, one per snapshot, in snapshot order. */
  function Allocations(shares: seq<MemberShare>, total: Micro): (r: seq<Allocation>)
    ensures |r| == |shares|
    ensures forall i :: 0 <= i < |shares| ==>
              r[i].member == shares[i].member && IsHalfEvenQuotient(total * shares[i].share, ShareScale, r[i].amount)
  {
    if |shares| == 0 then []
    else [Allocation(shares[0].member, Allocate(total, shares[0].share))] + Allocations(shares[1..], total)
  }

  /** `total_allocated`. */
  function Allocated(allocs: seq<Allocation>): Micro
  {
    if |allocs| == 0 then 0 else allocs[0].amount + Allocated(allocs[1..])
  }

  /** What one member is allocated over all of its snapshots. */
  function AllocatedTo(allocs: seq<Allocation>, m: MemberId): Micro
  {
    if |allocs| == 0 then 0
    else (if allocs[0].member == m then allocs[0].amount else 0) + AllocatedTo(allocs[1..], m)
  }

  /** The sum of the snapshot shares. */
  function ShareSum(shares: seq<MemberShare>): ShareUnits
  {
    if |shares| == 0 then 0 else shares[0].share + ShareSum(shares[1..])
  }

  // ---------------------------------------------------------------------
  // Properties of a single allocation

  /** A whole share allocates the whole amount; a zero share nothing. */
  lemma AllocateWholeAndNothing(total: Micro)
    ensures Allocate(total, ShareScale) == total
    ensures Allocate(total, 0) == 0
  {
    DivHalfEvenExact(total, ShareScale);
    DivHalfEvenExact(0, ShareScale);
  }

  /** Where `total * share` is a whole number of micro-units the allocation is
      exactly proportional. */
  lemma AllocateExact(total: Micro, share: ShareUnits)
    requires (total * share) % ShareScale == 0
    ensures Allocate(total, share) * ShareScale == total * share
  {
    var q := (total * share) / ShareScale;
    assert q * ShareScale == total * share;
    DivHalfEvenExact(q, ShareScale);
  }

  /** A share k times larger gets exactly k times the allocation whenever the
      smaller allocation needs no rounding. */
  lemma AllocateScales(total: Micro, share: ShareUnits, k: int)
    requires (total * share) % ShareScale == 0
    ensures Allocate(total, k * share) == k * Allocate(total, share)
  {
    AllocateExact(total, share);
    var a := Allocate(total, share);
    assert total * (k * share) == (k * a) * ShareScale by {
      assert total * (k * share) == k * (total * share);
      assert k * (a * ShareScale) == (k * a) * ShareScale;
    }
    DivHalfEvenExact(k * a, ShareScale);
  }

  lemma AllocatedToPair(a1: Allocation, a2: Allocation)
    requires a1.member != a2.member
    ensures AllocatedTo([a1, a2], a1.member) == a1.amount
  {
    assert [a1, a2][1..] == [a2];
    assert [a2][1..] == [];
    assert AllocatedTo([a2], a1.member) == AllocatedTo([], a1.member);
  }

  /** With two snapshots of different members, the first member gets
      exactly its own snapshot's allocation. */
  lemma AllocatedToFirstOfTwo(s1: MemberShare, s2: MemberShare, total: Micro)
    requires s1.member != s2.member
    ensures AllocatedTo(Allocations([s1, s2], total), s1.member) == Allocate(total, s1.share)
  {
    var a1 := Allocation(s1.member, Allocate(total, s1.share));
    var a2 := Allocation(s2.member, Allocate(total, s2.share));
    assert Allocations([s1, s2], total) == [a1, a2] by {
      assert [s1, s2][1..] == [s2];
      assert [s2][1..] == [];
      assert Allocations([s2], total) == [a2];
    }
    AllocatedToPair(a1, a2);
  }

  /** The same for any two-row list of those snapshots. */
  lemma FirstOfTwoRows(rows: seq<MemberShare>, total: Micro, s1: MemberShare, s2: MemberShare)
    requires |rows| == 2 && rows[0] == s1 && rows[1] == s2 && s1.member != s2.member
    ensures AllocatedTo(Allocations(rows, total), s1.member) == Allocate(total, s1.share)
  {
    assert rows == [s1, s2];
    AllocatedToFirstOfTwo(s1, s2, total);
  }

  /** 1000.00 split by shares 0.1 and 0.4 gives 100 and 400; a share of 1.0
      takes all of 500.00. */
  lemma AllocationExamples()
    ensures Allocate(1_000_000_000, 1_000_000_000) == 100_000_000
    ensures Allocate(1_000_000_000, 4_000_000_000) == 4 * Allocate(1_000_000_000, 1_000_000_000)
    ensures Allocate(500_000_000, ShareScale) == 500_000_000
  {
    DivHalfEvenExact(100_000_000, ShareScale);
    DivHalfEvenExact(400_000_000, ShareScale);
    AllocateWholeAndNothing(500_000_000);
  }

  lemma MulMonotone(t: int, a: int, b: int)
    requires t >= 0 && a <= b
    ensures t * a <= t * b
  {
    assert t * b - t * a == t * (b - a);
  }

  /** A larger share of a non-negative amount is never allocated less. */
  lemma AllocateMonotone(total: Micro, s1: ShareUnits, s2: ShareUnits)
    requires total >= 0 && s1 <= s2
    ensures Allocate(total, s1) <= Allocate(total, s2)
  {
    MulMonotone(total, s1, s2);
    DivHalfEvenMonotone(total * s1, total * s2, ShareScale);
  }

  /** Allocation is symmetric in the sign of the amount. */
  lemma AllocateNegate(total: Micro, share: ShareUnits)
    ensures Allocate(-total, share) == -Allocate(total, share)
  {
    assert -total * share == -(total * share);
    DivHalfEvenNegate(total * share, ShareScale);
  }

  // ---------------------------------------------------------------------
  // The rounding error of a whole allocation

  lemma {:induction false} AllocatedConcat(a: seq<Allocation>, b: seq<Allocation>)
    ensures Allocated(a + b) == Allocated(a) + Allocated(b)
    decreases |a|
  {
    if |a| == 0 {
      assert a + b == b;
    } else {
      assert (a + b)[1..] == a[1..] + b;
      AllocatedConcat(a[1..], b);
    }
  }

  /** Two rounding errors, each within its own bound, add up to an error
      within the sum of the bounds. */
  lemma CombineErrors(t0: int, tr: int, a0: int, ar: int, scale: int, n: nat)
    requires n >= 1
    requires 2 * Abs(t0 - a0 * scale) <= scale
    requires 2 * Abs(tr - ar * scale) <= (n - 1) * scale
    ensures 2 * Abs((t0 + tr) - (a0 + ar) * scale) <= n * scale
  {
    assert (a0 + ar) * scale == a0 * scale + ar * scale;
    assert n * scale == scale + (n - 1) * scale;
  }

  lemma AllocatedUnfold(shares: seq<MemberShare>, total: Micro)
    requires |shares| > 0
    ensures Allocated(Allocations(shares, total))
         == Allocate(total, shares[0].share) + Allocated(Allocations(shares[1..], total))
  {
    var allocs := Allocations(shares, total);
    assert allocs[1..] == Allocations(shares[1..], total);
  }

  lemma SharedTotalUnfold(shares: seq<MemberShare>, total: Micro)
    requires |shares| > 0
    ensures total * ShareSum(shares) == total * shares[0].share + total * ShareSum(shares[1..])
  {
    var first := shares[0].share;
    var others := ShareSum(shares[1..]);
    assert ShareSum(shares) == first + others;
    Distribute(total, first, others);
  }

  lemma Distribute(x: int, y: int, z: int)
    ensures x * (y + z) == x * y + x * z
  {
  }

  /** Each allocation is off by at most half a micro-unit, so the amounts
      allocated for n snapshots are within n/2 micro-units of the exact
      proportional amounts: |total * sum(shares) - sum(allocs) * scale| is
      at most n * scale / 2. */
  lemma {:induction false} RoundingErrorBound(shares: seq<MemberShare>, total: Micro)
    ensures 2 * Abs(total * ShareSum(shares) - Allocated(Allocations(shares, total)) * ShareScale)
         <= |shares| * ShareScale
    decreases |shares|
  {
    if |shares| > 0 {
      var rest := shares[1..];
      RoundingErrorBound(rest, total);
      AllocatedUnfold(shares, total);
      SharedTotalUnfold(shares, total);
      CombineErrors(total * shares[0].share, total * ShareSum(rest), Allocate(total, shares[0].share),
                    Allocated(Allocations(rest, total)), ShareScale, |shares|);
    }
  }

  /** When the snapshot shares add up to exactly one, what the rounding
      reserve receives is at most half a micro-unit per snapshot. */
  lemma RemainderBound(shares: seq<MemberShare>, total: Micro)
    requires ShareSum(shares) == ShareScale
    ensures 2 * Abs(total - Allocated(Allocations(shares, total))) <= |shares|
  {
    RoundingErrorBound(shares, total);
    var d := total - Allocated(Allocations(shares, total));
    assert total * ShareSum(shares) - Allocated(Allocations(shares, total)) * ShareScale == d * ShareScale;
  }

  // ---------------------------------------------------------------------
  // The entries of an accrual

  /** `('interest_income', None, -alloc, g)` and `('member_earnings', m,
      alloc, g)` for each allocation, in order. */
  function AllocationEntries(allocs: seq<Allocation>, g: GroupId): (entries: seq<Posting>)
    ensures |entries| == 2 * |allocs|
    ensures forall i :: 0 <= i < |entries| ==>
              entries[i].group == Some(g) && entries[i].account in {InterestIncome, MemberEarnings}
    ensures forall i :: 0 <= i < |entries| && entries[i].account == InterestIncome ==> entries[i].member.None?
  {
    if |allocs| == 0 then []
    else
      [Posting(InterestIncome, None, Some(g), -allocs[0].amount),
       Posting(MemberEarnings, Some(allocs[0].member), Some(g), allocs[0].amount)]
      + AllocationEntries(allocs[1..], g)
  }

  /** The remainder pair, posted only when the remainder is nonzero. */
  function RemainderEntries(remainder: Micro, g: GroupId): (entries: seq<Posting>)
    ensures forall i :: 0 <= i < |entries| ==>
              entries[i].group == Some(g) && entries[i].account in {InterestIncome, RoundingReserve}
              && entries[i].member.None?
  {
    if remainder != 0 then
      [Posting(InterestIncome, None, Some(g), -remainder), Posting(RoundingReserve, None, Some(g), remainder)]
    else []
  }

  lemma RemainderEntriesSums(remainder: Micro, g: GroupId)
    ensures Total(RemainderEntries(remainder, g)) == 0
    ensures Sum(RemainderEntries(remainder, g), InterestIncomeOf(g)) == -remainder
    ensures Sum(RemainderEntries(remainder, g), ReserveOf(g)) == remainder
  {
    var r := RemainderEntries(remainder, g);
    if remainder != 0 {
      var tail := [Posting(RoundingReserve, None, Some(g), remainder)];
      assert r[1..] == tail && tail[1..] == [];
      assert Total(tail) == remainder;
      assert Sum(tail, InterestIncomeOf(g)) == 0;
      assert Sum(tail, ReserveOf(g)) == remainder;
    }
  }

  /** All entries of an accrual of `total` split as `allocs`. */
  function AccrualEntries(allocs: seq<Allocation>, g: GroupId, total: Micro): (entries: seq<Posting>)
  {
    AllocationEntries(allocs, g) + RemainderEntries(total - Allocated(allocs), g)
  }

  lemma {:induction false} AllocationEntriesSums(allocs: seq<Allocation>, g: GroupId, m: MemberId)
    ensures Total(AllocationEntries(allocs, g)) == 0
    ensures Sum(AllocationEntries(allocs, g), InterestIncomeOf(g)) == -Allocated(allocs)
    ensures Sum(AllocationEntries(allocs, g), EarningsOf(m, g)) == AllocatedTo(allocs, m)
    ensures Sum(AllocationEntries(allocs, g), MemberAccountsOf(g)) == Allocated(allocs)
    decreases |allocs|
  {
    if |allocs| > 0 {
      var head := [Posting(InterestIncome, None, Some(g), -allocs[0].amount),
                   Posting(MemberEarnings, Some(allocs[0].member), Some(g), allocs[0].amount)];
      var tail := AllocationEntries(allocs[1..], g);
      AllocationEntriesSums(allocs[1..], g, m);
      TotalConcat(head, tail);
      SumConcat(head, tail, InterestIncomeOf(g));
      SumConcat(head, tail, EarningsOf(m, g));
      SumConcat(head, tail, MemberAccountsOf(g));
    }
  }

  /** The accrual's entries balance: the interest income account is
      charged exactly `total` and the rounding reserve takes whatever the
      allocations leave, posted as a pair only when it is nonzero. */
  lemma AccrualEntriesBalance(allocs: seq<Allocation>, g: GroupId, total: Micro)
    ensures Total(AccrualEntries(allocs, g, total)) == 0
    ensures Sum(AccrualEntries(allocs, g, total), InterestIncomeOf(g)) == -total
    ensures Sum(AccrualEntries(allocs, g, total), ReserveOf(g)) == total - Allocated(allocs)
    ensures |AccrualEntries(allocs, g, total)| == 2 * |allocs| + (if total == Allocated(allocs) then 0 else 2)
    ensures Sum(AccrualEntries(allocs, g, total), MemberAccountsOf(g)) == Allocated(allocs)
  {
    var a := AllocationEntries(allocs, g);
    var r := RemainderEntries(total - Allocated(allocs), g);
    assert AccrualEntries(allocs, g, total) == a + r;
    AllocationEntriesSums(allocs, g, 0);
    RemainderEntriesSums(total - Allocated(allocs), g);
    assert Total(a + r) == 0 by {
      TotalConcat(a, r);
    }
    assert Sum(a + r, InterestIncomeOf(g)) == -total by {
      SumConcat(a, r, InterestIncomeOf(g));
    }
    assert Sum(a + r, ReserveOf(g)) == total - Allocated(allocs) by {
      SumConcat(a, r, ReserveOf(g));
      SumNoneSelected(a, ReserveOf(g));
    }
    assert Sum(a + r, MemberAccountsOf(g)) == Allocated(allocs) by {
      SumConcat(a, r, MemberAccountsOf(g));
      SumNoneSelected(r, MemberAccountsOf(g));
    }
  }

  /** Each member's earnings grow by exactly its allocations. */
  lemma AccrualEntriesEarnings(allocs: seq<Allocation>, g: GroupId, total: Micro, m: MemberId)
    ensures Sum(AccrualEntries(allocs, g, total), EarningsOf(m, g)) == AllocatedTo(allocs, m)
  {
    var a := AllocationEntries(allocs, g);
    var r := RemainderEntries(total - Allocated(allocs), g);
    AllocationEntriesSums(allocs, g, m);
    SumConcat(a, r, EarningsOf(m, g));
    SumNoneSelected(r, EarningsOf(m, g));
  }

  /** Every posting of an accrual is tagged with the accrual's group, so no
      balance filtered on another group moves. */
  lemma AccrualEntriesStayInGroup(allocs: seq<Allocation>, g: GroupId, total: Micro, sel: Selector)
    requires sel.group.Some? && sel.group != Some(g)
    ensures forall i :: 0 <= i < |AccrualEntries(allocs, g, total)| ==> AccrualEntries(allocs, g, total)[i].group == Some(g)
    ensures Sum(AccrualEntries(allocs, g, total), sel) == 0
  {
    var a := AllocationEntries(allocs, g);
    var r := RemainderEntries(total - Allocated(allocs), g);
    SumNoneSelected(a, sel);
    SumNoneSelected(r, sel);
    SumConcat(a, r, sel);
  }

  /** An accrual touches no pool or principal account of any group. */
  lemma AccrualEntriesLeavePrincipal(allocs: seq<Allocation>, g: GroupId, total: Micro, h: GroupId, m: MemberId)
    ensures Sum(AccrualEntries(allocs, g, total), PoolOf(h)) == 0
    ensures Sum(AccrualEntries(allocs, g, total), PrincipalOf(m, h)) == 0
    ensures Sum(AccrualEntries(allocs, g, total), GroupPrincipalOf(h)) == 0
  {
    var entries := AccrualEntries(allocs, g, total);
    assert forall i :: 0 <= i < |entries| ==> entries[i].account in {InterestIncome, MemberEarnings, RoundingReserve};
    SumNoneSelected(entries, PoolOf(h));
    SumNoneSelected(entries, PrincipalOf(m, h));
    SumNoneSelected(entries, GroupPrincipalOf(h));
  }
}
