/** The posting engine: zero-sum validation of a set of entries, atomic
    posting of an event with its entries, and the filtered sums that every
    balance query over the posting table reduces to. */
module Postings {
  import opened Wrappers
  import opened Money
  import opened LedgerModels

  // ---------------------------------------------------------------------
  // Sums

  /** Sum of all amounts. */
  function Total(ps: seq<Posting>): Micro
  {
    if |ps| == 0 then 0 else ps[0].amount + Total(ps[1..])
  }

  lemma {:induction false} TotalConcat(a: seq<Posting>, b: seq<Posting>)
    ensures Total(a + b) == Total(a) + Total(b)
    decreases |a|
  {
    if |a| == 0 {
      assert a + b == b;
    } else {
      assert (a + b)[1..] == a[1..] + b;
      TotalConcat(a[1..], b);
    }
  }

  /** The WHERE clause of a balance query: `account_id IN accounts`, plus
      `member_id = m` and `group_id = g` when those filters are present. A
      NULL column never equals a filter value. */
  datatype Selector = Selector(accounts: set<AccountId>, member: Option<MemberId>, group: Option<GroupId>)

  predicate Selects(sel: Selector, p: Posting)
  {
    && p.account in sel.accounts
    && (sel.member.Some? ==> p.member == sel.member)
    && (sel.group.Some? ==> p.group == sel.group)
  }

  /** `coalesce(sum(amount), 0)` over the postings a selector picks out. */
  function Sum(ps: seq<Posting>, sel: Selector): Micro
  {
    if |ps| == 0 then 0
    else (if Selects(sel, ps[0]) then ps[0].amount else 0) + Sum(ps[1..], sel)
  }

  lemma {:induction false} SumConcat(a: seq<Posting>, b: seq<Posting>, sel: Selector)
    ensures Sum(a + b, sel) == Sum(a, sel) + Sum(b, sel)
    decreases |a|
  {
    if |a| == 0 {
      assert a + b == b;
    } else {
      assert (a + b)[1..] == a[1..] + b;
      SumConcat(a[1..], b, sel);
    }
  }

  /** Postings none of which a selector picks out contribute nothing. */
  lemma {:induction false} SumNoneSelected(ps: seq<Posting>, sel: Selector)
    requires forall i :: 0 <= i < |ps| ==> !Selects(sel, ps[i])
    ensures Sum(ps, sel) == 0
    decreases |ps|
  {
    if |ps| > 0 {
      SumNoneSelected(ps[1..], sel);
    }
  }

  /** The whole posting table: every event's postings, in event order. */
  function AllPostings(events: seq<LedgerEvent>): seq<Posting>
  {
    if |events| == 0 then []
    else AllPostings(events[..|events| - 1]) + events[|events| - 1].postings
  }

  /** A balance query over the posting table. */
  function Balance(events: seq<LedgerEvent>, sel: Selector): Micro
  {
    Sum(AllPostings(events), sel)
  }

  /** Appending an event changes a balance by exactly the event's own
      contribution to it. */
  lemma BalanceAppend(events: seq<LedgerEvent>, e: LedgerEvent, sel: Selector)
    ensures Balance(events + [e], sel) == Balance(events, sel) + Sum(e.postings, sel)
  {
    assert (events + [e])[..|events|] == events;
    SumConcat(AllPostings(events), e.postings, sel);
  }

  /** A balance counted event by event, in log order: what each event's own
      postings contribute, added up. */
  function SumByEvent(events: seq<LedgerEvent>, sel: Selector): Micro
  {
    if |events| == 0 then 0 else Sum(events[0].postings, sel) + SumByEvent(events[1..], sel)
  }

  /** The posting table read from the front: the first event's postings,
      then those of the rest of the log. */
  lemma {:induction false} AllPostingsFront(events: seq<LedgerEvent>)
    requires |events| > 0
    ensures AllPostings(events) == events[0].postings + AllPostings(events[1..])
    decreases |events|
  {
    var n := |events|;
    if n == 1 {
      assert events[..0] == [] && events[1..] == [];
    } else {
      var init := events[..n - 1];
      AllPostingsFront(init);
      assert init[0] == events[0];
      assert init[1..] == events[1..][..n - 2];
      assert events[1..][n - 2] == events[n - 1];
    }
  }

  /** The query over the posting table and the event-by-event count agree
      for every filter. */
  lemma {:induction false} BalanceBySumByEvent(events: seq<LedgerEvent>, sel: Selector)
    ensures Balance(events, sel) == SumByEvent(events, sel)
    decreases |events|
  {
    if |events| > 0 {
      AllPostingsFront(events);
      SumConcat(events[0].postings, AllPostings(events[1..]), sel);
      BalanceBySumByEvent(events[1..], sel);
    }
  }

  // ---------------------------------------------------------------------
  // Validation and posting

  /** The debit side of `(account, amount)` pairs: the positive amounts. */
  function Debits(pairs: seq<(string, Micro)>): nat
  {
    if |pairs| == 0 then 0 else (if pairs[0].1 > 0 then pairs[0].1 else 0) + Debits(pairs[1..])
  }

  /** The credit side: the magnitudes of the negative amounts. */
  function Credits(pairs: seq<(string, Micro)>): nat
  {
    if |pairs| == 0 then 0 else (if pairs[0].1 < 0 then -pairs[0].1 else 0) + Credits(pairs[1..])
  }

  lemma {:induction false} PairTotalSplits(pairs: seq<(string, Micro)>)
    ensures PairTotal(pairs) == Debits(pairs) - Credits(pairs)
    decreases |pairs|
  {
    if |pairs| > 0 {
      PairTotalSplits(pairs[1..]);
    }
  }

  /** `validate_postings_balance`: true exactly when the amounts of the
      `(account, amount)` pairs add up to zero, that is, when debits equal
      credits. */
  function ValidatePostingsBalance(pairs: seq<(string, Micro)>): (ok: bool)
    ensures ok <==> Debits(pairs) == Credits(pairs)
  {
    PairTotalSplits(pairs);
    PairTotal(pairs) == 0
  }

  function PairTotal(pairs: seq<(string, Micro)>): Micro
  {
    if |pairs| == 0 then 0 else pairs[0].1 + PairTotal(pairs[1..])
  }

  /** The `(account_id, amount)` view of a list of entries. */
  function AsPairs(entries: seq<Posting>): (pairs: seq<(string, Micro)>)
    ensures |pairs| == |entries|
    ensures forall i :: 0 <= i < |entries| ==> pairs[i] == (AccountKey(entries[i].account), entries[i].amount)
  {
    if |entries| == 0 then [] else [(AccountKey(entries[0].account), entries[0].amount)] + AsPairs(entries[1..])
  }

  /** `post_entries`: the event and its postings are appended together when
      the entries sum to zero; otherwise `LedgerError` carries the nonzero
      total and nothing is appended. No other condition is checked: an empty
      list of entries balances. */
  function PostEntries(events: seq<LedgerEvent>, header: LedgerEvent, entries: seq<Posting>)
    : (r: Result<seq<LedgerEvent>, LedgerError>)
    ensures r.Ok? <==> Total(entries) == 0
    ensures r.Ok? ==> r.value == events + [header.(postings := entries)]
    ensures r.Ok? ==> Total(r.value[|events|].postings) == 0
    ensures r.Err? ==> r.error == Imbalance(Total(entries)) && r.error.total != 0
  {
    var total := Total(entries);
    if total != 0 then Err(Imbalance(total))
    else Ok(events + [header.(postings := entries)])
  }

  /** The validator and the posting engine agree: posting succeeds exactly
      when the `(account, amount)` view of its entries validates. */
  lemma {:induction false} PostEntriesAgreesWithValidation(
    events: seq<LedgerEvent>, header: LedgerEvent, entries: seq<Posting>)
    ensures PostEntries(events, header, entries).Ok? <==> ValidatePostingsBalance(AsPairs(entries))
  {
    PairTotalOfEntries(entries);
  }

  lemma {:induction false} PairTotalOfEntries(entries: seq<Posting>)
    ensures PairTotal(AsPairs(entries)) == Total(entries)
    decreases |entries|
  {
    if |entries| > 0 {
      assert AsPairs(entries)[1..] == AsPairs(entries[1..]);
      PairTotalOfEntries(entries[1..]);
    }
  }

  /** Validation does not depend on the order of the pairs. */
  lemma {:induction false} ValidationIgnoresOrder(a: seq<(string, Micro)>, b: seq<(string, Micro)>)
    ensures ValidatePostingsBalance(a + b) == ValidatePostingsBalance(b + a)
  {
    PairTotalConcat(a, b);
    PairTotalConcat(b, a);
  }

  lemma {:induction false} PairTotalConcat(a: seq<(string, Micro)>, b: seq<(string, Micro)>)
    ensures PairTotal(a + b) == PairTotal(a) + PairTotal(b)
    decreases |a|
  {
    if |a| == 0 {
      assert a + b == b;
    } else {
      assert (a + b)[1..] == a[1..] + b;
      PairTotalConcat(a[1..], b);
    }
  }

  lemma ValidationExamples()
    ensures ValidatePostingsBalance([("pool_cash", 100_000_000), ("member_principal", -100_000_000)])
    ensures !ValidatePostingsBalance([("pool_cash", 100_000_000), ("member_principal", -99_000_000)])
    ensures ValidatePostingsBalance([("pool_cash", 0), ("member_principal", 0)])
    ensures ValidatePostingsBalance([])
  {
  }
}
