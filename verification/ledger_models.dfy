/** The ledger's schema: enumerated account, event and report kinds with the
    strings their CHECK constraints admit, the standard chart of accounts and
    its idempotent seeding, and the records of the event store (events owning
    their postings), share snapshots, tax buckets and tax reports. */
module LedgerModels {
  import opened Wrappers
  import opened Money
  import opened Calendar

  type UserId = int
  type MemberId = int
  type GroupId = int

  // ---------------------------------------------------------------------
  // Account types: CHECK valid_account_type

  datatype AccountType = Asset | Liability | Equity | Income | Expense

  const AccountTypeNames: seq<string> := ["asset", "liability", "equity", "income", "expense"]

  function AccountTypeName(t: AccountType): string
  {
    match t
    case Asset => "asset"
    case Liability => "liability"
    case Equity => "equity"
    case Income => "income"
    case Expense => "expense"
  }

  /** The column value as stored; only the five admitted strings parse. */
  function ParseAccountType(s: string): (r: Option<AccountType>)
    ensures r.Some? <==> s in AccountTypeNames
    ensures r.Some? ==> AccountTypeName(r.value) == s
  {
    if s == "asset" then Some(Asset)
    else if s == "liability" then Some(Liability)
    else if s == "equity" then Some(Equity)
    else if s == "income" then Some(Income)
    else if s == "expense" then Some(Expense)
    else None
  }

  lemma AccountTypeRoundTrip(t: AccountType)
    ensures ParseAccountType(AccountTypeName(t)) == Some(t)
  {
  }

  // ---------------------------------------------------------------------
  // Event types: CHECK valid_event_type

  datatype EventType = Deposit | Withdrawal | InterestAccrual | Correction | Payout | Fee | Transfer

  const EventTypeNames: seq<string> :=
    ["deposit", "withdrawal", "interest_accrual", "correction", "payout", "fee", "transfer"]

  function EventTypeName(t: EventType): string
  {
    match t
    case Deposit => "deposit"
    case Withdrawal => "withdrawal"
    case InterestAccrual => "interest_accrual"
    case Correction => "correction"
    case Payout => "payout"
    case Fee => "fee"
    case Transfer => "transfer"
  }

  function ParseEventType(s: string): (r: Option<EventType>)
    ensures r.Some? <==> s in EventTypeNames
    ensures r.Some? ==> EventTypeName(r.value) == s
  {
    if s == "deposit" then Some(Deposit)
    else if s == "withdrawal" then Some(Withdrawal)
    else if s == "interest_accrual" then Some(InterestAccrual)
    else if s == "correction" then Some(Correction)
    else if s == "payout" then Some(Payout)
    else if s == "fee" then Some(Fee)
    else if s == "transfer" then Some(Transfer)
    else None
  }

  lemma EventTypeRoundTrip(t: EventType)
    ensures ParseEventType(EventTypeName(t)) == Some(t)
  {
  }

  // ---------------------------------------------------------------------
  // Report types and statuses: CHECK valid_report_type / valid_report_status

  datatype ReportType = Statement | Form1099Int | Summary

  const ReportTypeNames: seq<string> := ["statement", "1099-INT", "summary"]

  function ReportTypeName(t: ReportType): string
  {
    match t
    case Statement => "statement"
    case Form1099Int => "1099-INT"
    case Summary => "summary"
  }

  function ParseReportType(s: string): (r: Option<ReportType>)
    ensures r.Some? <==> s in ReportTypeNames
    ensures r.Some? ==> ReportTypeName(r.value) == s
  {
    if s == "statement" then Some(Statement)
    else if s == "1099-INT" then Some(Form1099Int)
    else if s == "summary" then Some(Summary)
    else None
  }

  datatype ReportStatus = Draft | Final | Corrected

  const ReportStatusNames: seq<string> := ["draft", "final", "corrected"]

  /** The column default of `TaxReport.status`. */
  const DefaultReportStatus: ReportStatus := Draft

  function ReportStatusName(t: ReportStatus): string
  {
    match t
    case Draft => "draft"
    case Final => "final"
    case Corrected => "corrected"
  }

  function ParseReportStatus(s: string): (r: Option<ReportStatus>)
    ensures r.Some? <==> s in ReportStatusNames
    ensures r.Some? ==> ReportStatusName(r.value) == s
  {
    if s == "draft" then Some(Draft)
    else if s == "final" then Some(Final)
    else if s == "corrected" then Some(Corrected)
    else None
  }

  lemma ReportKindsRoundTrip(t: ReportType, st: ReportStatus)
    ensures ParseReportType(ReportTypeName(t)) == Some(t)
    ensures ParseReportStatus(ReportStatusName(st)) == Some(st)
    ensures ReportStatusName(DefaultReportStatus) == "draft"
  {
  }

  // ---------------------------------------------------------------------
  // Chart of accounts

  /** The accounts postings may reference: the seeded standard chart. */
  datatype AccountId =
    PoolCash | MemberPrincipal | MemberEarnings | InterestIncome | FeeIncome | RoundingReserve | OperatingExpense

  /** The primary key of an account row. */
  function AccountKey(a: AccountId): string
  {
    match a
    case PoolCash => "pool_cash"
    case MemberPrincipal => "member_principal"
    case MemberEarnings => "member_earnings"
    case InterestIncome => "interest_income"
    case FeeIncome => "fee_income"
    case RoundingReserve => "rounding_reserve"
    case OperatingExpense => "operating_expense"
  }

  datatype Account = Account(id: string, kind: AccountType, name: string, description: string, active: bool)

  /** `STANDARD_ACCOUNTS`, in order; `is_active` takes its column default. */
  const StandardAccounts: seq<Account> := [
    Account("pool_cash", Asset, "Pool Cash", "Total cash held by savings pool", true),
    Account("member_principal", Liability, "Member Principal", "Principal owed to members", true),
    Account("member_earnings", Liability, "Member Earnings", "Accumulated earnings owed to members", true),
    Account("interest_income", Income, "Interest Income", "Interest earned on pool investments", true),
    Account("fee_income", Income, "Fee Income", "Administrative fees collected", true),
    Account("rounding_reserve", Liability, "Rounding Reserve", "Sub-cent amounts from allocation rounding", true),
    Account("operating_expense", Expense, "Operating Expenses", "Pool operating costs", true)
  ]

  const StandardOrder: seq<AccountId> :=
    [PoolCash, MemberPrincipal, MemberEarnings, InterestIncome, FeeIncome, RoundingReserve, OperatingExpense]

  /** The accounting type each standard account is seeded with. */
  function ChartType(a: AccountId): AccountType
  {
    match a
    case PoolCash => Asset
    case MemberPrincipal => Liability
    case MemberEarnings => Liability
    case InterestIncome => Income
    case FeeIncome => Income
    case RoundingReserve => Liability
    case OperatingExpense => Expense
  }

  /** Row i of the chart is the account at position i of `StandardOrder`,
      with that account's type. */
  lemma StandardRowsMatchOrder()
    ensures |StandardAccounts| == 7 == |StandardOrder|
    ensures forall i :: 0 <= i < 7 ==>
      StandardAccounts[i].id == AccountKey(StandardOrder[i]) && StandardAccounts[i].kind == ChartType(StandardOrder[i])
  {
    forall i | 0 <= i < 7
      ensures StandardAccounts[i].id == AccountKey(StandardOrder[i])
      ensures StandardAccounts[i].kind == ChartType(StandardOrder[i])
    {
    }
  }

  /** Distinct accounts have distinct keys. */
  lemma AccountKeyInjective(a: AccountId, b: AccountId)
    requires a != b
    ensures AccountKey(a) != AccountKey(b)
  {
  }

  /** The seven seeded rows are exactly the accounts postings use, each once,
      with the listed accounting types. */
  lemma StandardChart()
    ensures |StandardAccounts| == 7 == |StandardOrder|
    ensures forall i :: 0 <= i < 7 ==>
      StandardAccounts[i].id == AccountKey(StandardOrder[i]) && StandardAccounts[i].kind == ChartType(StandardOrder[i])
    ensures forall a: AccountId :: a in StandardOrder
    ensures DistinctIds(StandardAccounts)
    ensures ChartType(PoolCash) == Asset
    ensures ChartType(MemberPrincipal) == Liability && ChartType(MemberEarnings) == Liability
    ensures ChartType(RoundingReserve) == Liability
    ensures ChartType(InterestIncome) == Income && ChartType(FeeIncome) == Income
    ensures ChartType(OperatingExpense) == Expense
  {
    StandardRowsMatchOrder();
    forall a: AccountId ensures a in StandardOrder {
      match a
      case PoolCash => assert StandardOrder[0] == a;
      case MemberPrincipal => assert StandardOrder[1] == a;
      case MemberEarnings => assert StandardOrder[2] == a;
      case InterestIncome => assert StandardOrder[3] == a;
      case FeeIncome => assert StandardOrder[4] == a;
      case RoundingReserve => assert StandardOrder[5] == a;
      case OperatingExpense => assert StandardOrder[6] == a;
    }
    forall i, j | 0 <= i < j < |StandardAccounts|
      ensures StandardAccounts[i].id != StandardAccounts[j].id
    {
      AccountKeyInjective(StandardOrder[i], StandardOrder[j]);
    }
  }

  function Ids(accounts: seq<Account>): (ids: set<string>)
    ensures forall i :: 0 <= i < |accounts| ==> accounts[i].id in ids
  {
    if |accounts| == 0 then {} else {accounts[0].id} + Ids(accounts[1..])
  }

  predicate DistinctIds(accounts: seq<Account>)
  {
    forall i, j :: 0 <= i < j < |accounts| ==> accounts[i].id != accounts[j].id
  }

  /** Inserts each account whose id is absent, in order; an existing row is
      never touched. */
  function SeedFrom(table: map<string, Account>, accounts: seq<Account>): (r: map<string, Account>)
    requires DistinctIds(accounts)
    ensures r.Keys == table.Keys + Ids(accounts)
    ensures forall k :: k in table ==> r[k] == table[k]
    ensures forall i :: 0 <= i < |accounts| && accounts[i].id !in table ==> r[accounts[i].id] == accounts[i]
    decreases |accounts|
  {
    if |accounts| == 0 then table
    else
      var a := accounts[0];
      var rest := accounts[1..];
      var next := if a.id in table then table else table[a.id := a];
      var r := SeedFrom(next, rest);
      assert forall i :: 1 <= i < |accounts| ==> accounts[i] == rest[i - 1] && accounts[i].id != a.id;
      r
  }

  /** `seed_accounts`: the table afterwards holds every standard id, keeps
      every row it had, and gains exactly the standard rows it lacked. */
  function SeedAccounts(table: map<string, Account>): (r: map<string, Account>)
    ensures r.Keys == table.Keys + Ids(StandardAccounts)
    ensures forall k :: k in table ==> r[k] == table[k]
    ensures forall i :: 0 <= i < |StandardAccounts| && StandardAccounts[i].id !in table ==>
              r[StandardAccounts[i].id] == StandardAccounts[i]
  {
    StandardChart();
    SeedFrom(table, StandardAccounts)
  }

  /** Seeding twice is seeding once. */
  lemma SeedAccountsIdempotent(table: map<string, Account>)
    ensures SeedAccounts(SeedAccounts(table)) == SeedAccounts(table)
  {
    var once := SeedAccounts(table);
    var twice := SeedAccounts(once);
    assert twice.Keys == once.Keys;
    assert forall k :: k in twice ==> twice[k] == once[k];
  }

  // ---------------------------------------------------------------------
  // Event store

  /** One leg of a double-entry transaction: `(account_id, member_id, amount,
      group_id)`, the amount with six fractional digits. */
  datatype Posting = Posting(account: AccountId, member: Option<MemberId>, group: Option<GroupId>, amount: Micro)

  /** A value in an event's free-form `meta` blob. */
  datatype MetaValue = MetaInt(i: int) | MetaAmount(m: Micro) | MetaDate(d: Day) | MetaText(t: string)

  type Meta = map<string, MetaValue>

  /** An immutable event; it owns its postings. Its id is its position in the log. */
  datatype LedgerEvent = LedgerEvent(
    ts: Instant,
    kind: EventType,
    ref: string,
    meta: Meta,
    group: Option<GroupId>,
    createdBy: Option<UserId>,
    postings: seq<Posting>)

  type EventId = nat

  // ---------------------------------------------------------------------
  // Share snapshots: UNIQUE (snapshot_date, member_id, group_id)

  /** A share in units of 1e-10 (`Numeric(18, 10)`). */
  type ShareUnits = int

  const ShareScale: int := 10_000_000_000

  datatype MemberShare = MemberShare(
    date: Day,
    member: MemberId,
    group: GroupId,
    poolPrincipal: Micro,
    memberPrincipal: Micro,
    share: ShareUnits)

  datatype ShareKey = ShareKey(date: Day, member: MemberId, group: GroupId)

  function KeyOf(s: MemberShare): ShareKey
  {
    ShareKey(s.date, s.member, s.group)
  }

  /** The table's unique constraint: at most one snapshot per key. */
  predicate UniqueShareKeys(shares: seq<MemberShare>)
  {
    forall i, j :: 0 <= i < j < |shares| ==> KeyOf(shares[i]) != KeyOf(shares[j])
  }

  // ---------------------------------------------------------------------
  // Tax buckets: UNIQUE (member_id, group_id, tax_year), enforced by the map key

  datatype BucketKey = BucketKey(member: MemberId, group: GroupId, year: int)

  datatype TaxBucket = TaxBucket(taxableInterest: Micro, contributions: Micro, withdrawals: Micro, lastUpdate: Instant)

  // ---------------------------------------------------------------------
  // Tax reports

  datatype TaxReport = TaxReport(
    member: MemberId,
    group: Option<GroupId>,
    year: int,
    kind: ReportType,
    status: ReportStatus,
    payload: string,
    checksum: string,
    pdfPath: Option<string>,
    createdAt: Instant,
    finalizedAt: Option<Instant>)

  // ---------------------------------------------------------------------
  // Errors raised as `LedgerError`

  datatype LedgerError =
    | Imbalance(total: Micro)
    | InsufficientFunds(requested: Micro, available: Micro)
    | ReportNotFound(reportId: string)
    | AlreadyFinalized(reportId: string)
}
