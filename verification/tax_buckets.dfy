/** Year-to-date tax buckets, one row per (member, group, tax year).

    The year of a contribution or withdrawal is the UTC year of the moment
    it is recorded; the year of interest is the accrual date's year. */
module TaxBuckets {
  import opened Money
  import opened Calendar
  import opened LedgerModels
  import opened LedgerState

  /** The tax year of an instant (`datetime.utcnow().year`). */
  function TaxYearAt(now: Instant): int
  {
    YearOf(DayOf(now))
  }

  /** One second before and at midnight UTC on 1 January 2024 fall in
      different tax years, and so do the two sides of the epoch. */
  lemma TaxYearAtNewYear()
    ensures TaxYearAt(1_704_067_199) == 2023 && TaxYearAt(1_704_067_200) == 2024
    ensures TaxYearAt(-1) == 1969 && TaxYearAt(0) == 1970
  {
    assert DayOf(1_704_067_199) == 19_722 && DayOf(1_704_067_200) == 19_723;
    assert DayOf(-1) == -1 && DayOf(0) == 0;
    YearOfExamples();
  }

  /** `update_tax_bucket_contribution`: adds to the contributions of the
      current year's bucket, creating it with zero totals when missing. */
  function UpdateTaxBucketContribution(
    buckets: map<BucketKey, TaxBucket>, m: MemberId, g: GroupId, amount: Micro, now: Instant)
    : (r: map<BucketKey, TaxBucket>)
    ensures r.Keys == buckets.Keys + {BucketKey(m, g, TaxYearAt(now))}
    ensures var key := BucketKey(m, g, TaxYearAt(now));
      && r[key].contributions == BucketOrZero(buckets, key).contributions + amount
      && r[key].taxableInterest == BucketOrZero(buckets, key).taxableInterest
      && r[key].withdrawals == BucketOrZero(buckets, key).withdrawals
      && r[key].lastUpdate == now
    ensures forall k :: k in buckets && k != BucketKey(m, g, TaxYearAt(now)) ==> r[k] == buckets[k]
  {
    var key := BucketKey(m, g, TaxYearAt(now));
    var b := BucketOrZero(buckets, key);
    buckets[key := b.(contributions := b.contributions + amount, lastUpdate := now)]
  }

  /** `update_tax_bucket_withdrawal`: adds to the withdrawals of the current
      year's bucket only when that bucket already exists; a missing bucket
      is not created and the withdrawal goes unrecorded. */
  function UpdateTaxBucketWithdrawal(
    buckets: map<BucketKey, TaxBucket>, m: MemberId, g: GroupId, amount: Micro, now: Instant)
    : (r: map<BucketKey, TaxBucket>)
    ensures r.Keys == buckets.Keys
    ensures BucketKey(m, g, TaxYearAt(now)) !in buckets ==> r == buckets
    ensures var key := BucketKey(m, g, TaxYearAt(now));
      key in buckets ==>
        && r[key].withdrawals == buckets[key].withdrawals + amount
        && r[key].contributions == buckets[key].contributions
        && r[key].taxableInterest == buckets[key].taxableInterest
        && r[key].lastUpdate == now
    ensures forall k :: k in buckets && k != BucketKey(m, g, TaxYearAt(now)) ==> r[k] == buckets[k]
  {
    var key := BucketKey(m, g, TaxYearAt(now));
    if key in buckets then
      buckets[key := buckets[key].(withdrawals := buckets[key].withdrawals + amount, lastUpdate := now)]
    else
      buckets
  }

  /** `update_tax_bucket_interest`: adds to the taxable interest of the
      given year's bucket, creating it with zero totals when missing. */
  function UpdateTaxBucketInterest(
    buckets: map<BucketKey, TaxBucket>, m: MemberId, g: GroupId, amount: Micro, year: int, now: Instant)
    : (r: map<BucketKey, TaxBucket>)
    ensures r.Keys == buckets.Keys + {BucketKey(m, g, year)}
    ensures var key := BucketKey(m, g, year);
      && r[key].taxableInterest == BucketOrZero(buckets, key).taxableInterest + amount
      && r[key].contributions == BucketOrZero(buckets, key).contributions
      && r[key].withdrawals == BucketOrZero(buckets, key).withdrawals
      && r[key].lastUpdate == now
    ensures forall k :: k in buckets && k != BucketKey(m, g, year) ==> r[k] == buckets[k]
  {
    var key := BucketKey(m, g, year);
    var b := BucketOrZero(buckets, key);
    buckets[key := b.(taxableInterest := b.taxableInterest + amount, lastUpdate := now)]
  }
}
