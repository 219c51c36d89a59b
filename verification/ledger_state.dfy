/** The persisted state of the ledger and the read-only balance queries.

    The database becomes one immutable value: the append-only event log (each
    event owning its postings), the share-snapshot table and the tax-bucket
    table. Every balance is a filtered sum over the posting table. */
module LedgerState {
  import opened Wrappers
  import opened Money
  import opened Calendar
  import opened LedgerModels
  import opened Postings

  datatype Ledger = Ledger(
    events: seq<LedgerEvent>,
    shares: seq<MemberShare>,
    buckets: map<BucketKey, TaxBucket>)

  const EmptyLedger: Ledger := Ledger([], [], map[])

  // ---------------------------------------------------------------------
  // The WHERE clauses of the service's queries

  function PrincipalOf(m: MemberId, g: GroupId): Selector
  {
    Selector({MemberPrincipal}, Some(m), Some(g))
  }

  function EarningsOf(m: MemberId, g: GroupId): Selector
  {
    Selector({MemberEarnings}, Some(m), Some(g))
  }

  function PoolOf(g: GroupId): Selector
  {
    Selector({PoolCash}, None, Some(g))
  }

  /** All principal postings of a group, whatever member they carry. */
  function GroupPrincipalOf(g: GroupId): Selector
  {
    Selector({MemberPrincipal}, None, Some(g))
  }

  /** `account_id IN ('member_principal', 'member_earnings')` for a group. */
  function MemberAccountsOf(g: GroupId): Selector
  {
    Selector({MemberPrincipal, MemberEarnings}, None, Some(g))
  }

  function ReserveOf(g: GroupId): Selector
  {
    Selector({RoundingReserve}, None, Some(g))
  }

  function InterestIncomeOf(g: GroupId): Selector
  {
    Selector({InterestIncome}, None, Some(g))
  }

  // ---------------------------------------------------------------------
  // Queries

  /** The signed sum of a member's principal postings (a liability, so
      normally zero or negative). */
  function PrincipalBalance(events: seq<LedgerEvent>, m: MemberId, g: GroupId): Micro
  {
    Balance(events, PrincipalOf(m, g))
  }

  /** `get_member_principal`: the absolute value of the signed sum. */
  function GetMemberPrincipal(events: seq<LedgerEvent>, m: MemberId, g: GroupId): (r: Micro)
    ensures r >= 0
    ensures r == PrincipalBalance(events, m, g) || r == -PrincipalBalance(events, m, g)
    ensures PrincipalBalance(events, m, g) <= 0 ==> r == -PrincipalBalance(events, m, g)
  {
    Abs(PrincipalBalance(events, m, g))
  }

  /** `get_member_earnings`: the raw sum, not absolute-valued; the same as
      adding up each event's earnings postings for the member in turn. */
  function GetMemberEarnings(events: seq<LedgerEvent>, m: MemberId, g: GroupId): (r: Micro)
    ensures r == SumByEvent(events, EarningsOf(m, g))
  {
    BalanceBySumByEvent(events, EarningsOf(m, g));
    Balance(events, EarningsOf(m, g))
  }

  /** `get_pool_balance`: the raw sum of the group's pool cash postings;
      the same as adding up each event's pool postings in turn. */
  function GetPoolBalance(events: seq<LedgerEvent>, g: GroupId): (r: Micro)
    ensures r == SumByEvent(events, PoolOf(g))
  {
    BalanceBySumByEvent(events, PoolOf(g));
    Balance(events, PoolOf(g))
  }

  /** A bucket as the service reads it, all zeros when the row is missing. */
  function BucketOrZero(buckets: map<BucketKey, TaxBucket>, key: BucketKey): (b: TaxBucket)
    ensures key !in buckets ==> b.taxableInterest == 0 && b.contributions == 0 && b.withdrawals == 0
    ensures key in buckets ==> b == buckets[key]
  {
    if key in buckets then buckets[key] else TaxBucket(0, 0, 0, 0)
  }

  datatype Position = Position(
    principal: Micro,
    earnings: Micro,
    totalBalance: Micro,
    taxableYtd: Micro,
    contributionsYtd: Micro,
    withdrawalsYtd: Micro)

  /** `get_member_position`, with exact amounts: the current-year bucket
      figures, or zeros when the member has no bucket for this year. */
  function GetMemberPosition(l: Ledger, m: MemberId, g: GroupId, now: Instant): (p: Position)
    ensures p.principal == GetMemberPrincipal(l.events, m, g) && p.principal >= 0
    ensures p.earnings == GetMemberEarnings(l.events, m, g)
    ensures p.totalBalance == p.principal + p.earnings
    ensures BucketKey(m, g, YearOf(DayOf(now))) !in l.buckets ==>
              p.taxableYtd == 0 && p.contributionsYtd == 0 && p.withdrawalsYtd == 0
    ensures BucketKey(m, g, YearOf(DayOf(now))) in l.buckets ==>
              var b := l.buckets[BucketKey(m, g, YearOf(DayOf(now)))];
              p.taxableYtd == b.taxableInterest && p.contributionsYtd == b.contributions
              && p.withdrawalsYtd == b.withdrawals
  {
    var principal := GetMemberPrincipal(l.events, m, g);
    var earnings := GetMemberEarnings(l.events, m, g);
    var b := BucketOrZero(l.buckets, BucketKey(m, g, YearOf(DayOf(now))));
    Position(principal, earnings, principal + earnings, b.taxableInterest, b.contributions, b.withdrawals)
  }
}
