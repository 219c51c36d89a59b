/** Daily member-share snapshots: the per-member fraction of the pool that
    interest allocation reads for the day before an accrual.

    The snapshot table is a sequence of rows under the unique constraint on
    (date, member, group); a lookup returns the first row with the key, as
    `.first()` does. */
module ShareSnapshots {
  import opened Wrappers
  import opened Money
  import opened Calendar
  import opened LedgerModels
  import opened Postings
  import opened LedgerState

  // ---------------------------------------------------------------------
  // The share ratio

  /** `member_principal / pool_principal` as stored in the Numeric(18, 10)
      column, and zero unless the pool is positive. */
  function ShareRatio(memberPrincipal: Micro, poolPrincipal: Micro): (s: ShareUnits)
    ensures poolPrincipal > 0 ==> IsHalfEvenQuotient(memberPrincipal * ShareScale, poolPrincipal, s)
    ensures poolPrincipal <= 0 ==> s == 0
  {
    if poolPrincipal > 0 then DivHalfEven(memberPrincipal * ShareScale, poolPrincipal) else 0
  }

  /** A member holding part of the pool gets a share between 0 and 1, and a
      member holding all of it gets exactly 1. */
  lemma ShareRatioBounds(memberPrincipal: Micro, poolPrincipal: Micro)
    requires 0 <= memberPrincipal <= poolPrincipal
    ensures 0 <= ShareRatio(memberPrincipal, poolPrincipal) <= ShareScale
    ensures memberPrincipal == poolPrincipal > 0 ==> ShareRatio(memberPrincipal, poolPrincipal) == ShareScale
  {
    if poolPrincipal > 0 {
      DivHalfEvenExact(0, poolPrincipal);
      DivHalfEvenExact(ShareScale, poolPrincipal);
      DivHalfEvenMonotone(0, memberPrincipal * ShareScale, poolPrincipal);
      DivHalfEvenMonotone(memberPrincipal * ShareScale, ShareScale * poolPrincipal, poolPrincipal);
    }
  }

  /** 6000 of a 15000 pool is a share of 0.4; 1000 of 10000 is 0.1. */
  lemma ShareRatioExamples()
    ensures ShareRatio(6_000_000_000, 15_000_000_000) == 4_000_000_000
    ensures ShareRatio(1_000_000_000, 10_000_000_000) == 1_000_000_000
  {
    assert 4_000_000_000 * 15_000_000_000 == 6_000_000_000 * ShareScale;
    DivHalfEvenExact(4_000_000_000, 15_000_000_000);
    assert 1_000_000_000 * 10_000_000_000 == 1_000_000_000 * ShareScale;
    DivHalfEvenExact(1_000_000_000, 10_000_000_000);
  }

  /** The snapshot row of one member, computed from the balances of `events`. */
  function Snapshot(events: seq<LedgerEvent>, date: Day, m: MemberId, g: GroupId): MemberShare
  {
    var pool := GetPoolBalance(events, g);
    var principal := GetMemberPrincipal(events, m, g);
    MemberShare(date, m, g, pool, principal, ShareRatio(principal, pool))
  }

  // ---------------------------------------------------------------------
  // Lookup by key

  /** The index of the first row with the key. */
  function FindShare(shares: seq<MemberShare>, key: ShareKey): (r: Option<nat>)
    ensures r.Some? ==> r.value < |shares| && KeyOf(shares[r.value]) == key
    ensures r.Some? ==> forall j :: 0 <= j < r.value ==> KeyOf(shares[j]) != key
    ensures r.None? ==> forall j :: 0 <= j < |shares| ==> KeyOf(shares[j]) != key
  {
    FindFrom(shares, key, 0)
  }

  function FindFrom(shares: seq<MemberShare>, key: ShareKey, i: nat): (r: Option<nat>)
    requires i <= |shares|
    requires forall j :: 0 <= j < i ==> KeyOf(shares[j]) != key
    ensures r.Some? ==> i <= r.value < |shares| && KeyOf(shares[r.value]) == key
    ensures r.Some? ==> forall j :: 0 <= j < r.value ==> KeyOf(shares[j]) != key
    ensures r.None? ==> forall j :: 0 <= j < |shares| ==> KeyOf(shares[j]) != key
    decreases |shares| - i
  {
    if i == |shares| then None
    else if KeyOf(shares[i]) == key then Some(i)
    else FindFrom(shares, key, i + 1)
  }

  /** `MemberShare.query.filter_by(snapshot_date, member_id, group_id).first()`. */
  function Lookup(shares: seq<MemberShare>, key: ShareKey): (r: Option<MemberShare>)
    ensures r.Some? <==> exists i :: 0 <= i < |shares| && KeyOf(shares[i]) == key
    ensures r.Some? ==> r.value in shares && KeyOf(r.value) == key
  {
    match FindShare(shares, key)
    case Some(i) => Some(shares[i])
    case None => None
  }

  /** Two tables whose rows carry the key at the same positions agree on
      where its first row is. */
  lemma FindShareSamePattern(a: seq<MemberShare>, b: seq<MemberShare>, key: ShareKey)
    requires |a| == |b|
    requires forall j :: 0 <= j < |a| ==> (KeyOf(a[j]) == key <==> KeyOf(b[j]) == key)
    ensures FindShare(a, key) == FindShare(b, key)
  {
    var fa := FindShare(a, key);
    var fb := FindShare(b, key);
    if fa.Some? {
      assert KeyOf(b[fa.value]) == key;
    }
    if fb.Some? {
      assert KeyOf(a[fb.value]) == key;
    }
  }

  /** Appending a row leaves every earlier answer alone and answers its own
      key only where the table had no row for it. */
  lemma LookupAppend(shares: seq<MemberShare>, x: MemberShare, key: ShareKey)
    ensures Lookup(shares, key).Some? ==> Lookup(shares + [x], key) == Lookup(shares, key)
    ensures Lookup(shares, key).None? ==>
              Lookup(shares + [x], key) == (if KeyOf(x) == key then Some(x) else None)
  {
    var t := shares + [x];
    assert t[|shares|] == x;
    assert forall j :: 0 <= j < |shares| ==> t[j] == shares[j];
    var f := FindShare(shares, key);
    var ft := FindShare(t, key);
    if f.Some? {
      assert KeyOf(t[f.value]) == key;
    }
    if ft.Some? && ft.value < |shares| {
      assert KeyOf(shares[ft.value]) == key;
    }
  }

  lemma UniqueAppend(shares: seq<MemberShare>, x: MemberShare)
    requires UniqueShareKeys(shares)
    requires Lookup(shares, KeyOf(x)).None?
    ensures UniqueShareKeys(shares + [x])
  {
    var t := shares + [x];
    forall i, j | 0 <= i < j < |t|
      ensures KeyOf(t[i]) != KeyOf(t[j])
    {
      if j == |shares| {
        assert t[i] == shares[i];
      } else {
        assert t[i] == shares[i] && t[j] == shares[j];
      }
    }
  }

  // ---------------------------------------------------------------------
  // update_share_snapshot

  /** `update_share_snapshot`: today's row for the member is replaced, or
      created, with the share computed from the current balances; every
      other key keeps its row. */
  function UpdateShareSnapshot(
    shares: seq<MemberShare>, events: seq<LedgerEvent>, m: MemberId, g: GroupId, today: Day)
    : (r: seq<MemberShare>)
    ensures Lookup(r, ShareKey(today, m, g)) == Some(Snapshot(events, today, m, g))
    ensures forall k :: k != ShareKey(today, m, g) ==> Lookup(r, k) == Lookup(shares, k)
    ensures UniqueShareKeys(shares) ==> UniqueShareKeys(r)
    ensures |shares| <= |r| <= |shares| + 1
  {
    var key := ShareKey(today, m, g);
    var snap := Snapshot(events, today, m, g);
    match FindShare(shares, key)
    case Some(i) =>
      var r := shares[i := snap];
      assert Lookup(r, key) == Some(snap) by {
        FindShareSamePattern(r, shares, key);
      }
      assert forall k :: k != key ==> Lookup(r, k) == Lookup(shares, k) by {
        forall k | k != key
          ensures Lookup(r, k) == Lookup(shares, k)
        {
          FindShareSamePattern(r, shares, k);
        }
      }
      assert UniqueShareKeys(shares) ==> UniqueShareKeys(r) by {
        if UniqueShareKeys(shares) {
          forall a, b | 0 <= a < b < |r|
            ensures KeyOf(r[a]) != KeyOf(r[b])
          {
            assert KeyOf(r[a]) == KeyOf(shares[a]) && KeyOf(r[b]) == KeyOf(shares[b]);
          }
        }
      }
      r
    case None =>
      assert forall k :: Lookup(shares + [snap], k) == (if k == key then Some(snap) else Lookup(shares, k)) by {
        forall k
          ensures Lookup(shares + [snap], k) == (if k == key then Some(snap) else Lookup(shares, k))
        {
          LookupAppend(shares, snap, k);
        }
      }
      assert UniqueShareKeys(shares) ==> UniqueShareKeys(shares + [snap]) by {
        if UniqueShareKeys(shares) {
          UniqueAppend(shares, snap);
        }
      }
      shares + [snap]
  }

  // ---------------------------------------------------------------------
  // The rows of one day

  /** `MemberShare.query.filter_by(group_id, snapshot_date).all()`. */
  function SharesFor(shares: seq<MemberShare>, g: GroupId, date: Day): (r: seq<MemberShare>)
    ensures forall s :: s in r <==> s in shares && s.group == g && s.date == date
    ensures |r| <= |shares|
  {
    if |shares| == 0 then []
    else
      var init := shares[..|shares| - 1];
      var last := shares[|shares| - 1];
      assert shares == init + [last];
      var r := SharesFor(init, g, date);
      if last.group == g && last.date == date then r + [last] else r
  }

  // ---------------------------------------------------------------------
  // generate_share_snapshots

  /** The ledger as it stood at the end of a day: the events dated on or
      before it. */
  function EventsThrough(events: seq<LedgerEvent>, d: Day): (r: seq<LedgerEvent>)
    ensures forall e :: e in r <==> e in events && DayOf(e.ts) <= d
    ensures |r| <= |events|
  {
    if |events| == 0 then []
    else
      var init := events[..|events| - 1];
      var last := events[|events| - 1];
      assert events == init + [last];
      var r := EventsThrough(init, d);
      if DayOf(last.ts) <= d then r + [last] else r
  }

  /** The loop of `generate_share_snapshots`: a row for every listed member
      who has none for the date yet, each computed from the balances of
      `basis`. Rows it adds are visible to later iterations, so a member
      listed twice gets one row. Returns the table and the rows created. */
  function Backfill(
    basis: seq<LedgerEvent>, shares: seq<MemberShare>, g: GroupId, date: Day, members: seq<MemberId>)
    : (r: (seq<MemberShare>, seq<MemberShare>))
    ensures r.0 == shares + r.1
    ensures |r.1| <= |members|
    decreases |members|
  {
    if |members| == 0 then (shares, [])
    else
      var snap := Snapshot(basis, date, members[0], g);
      var created := if Lookup(shares, KeyOf(snap)).Some? then [] else [snap];
      var rest := Backfill(basis, shares + created, g, date, members[1..]);
      (rest.0, created + rest.1)
  }

  /** Every created row is the snapshot of a listed member. */
  lemma {:induction false} BackfillCreatesSnapshots(
    basis: seq<LedgerEvent>, shares: seq<MemberShare>, g: GroupId, date: Day, members: seq<MemberId>)
    ensures forall s :: s in Backfill(basis, shares, g, date, members).1 ==>
              s.member in members && s == Snapshot(basis, date, s.member, g)
    decreases |members|
  {
    if |members| > 0 {
      var snap := Snapshot(basis, date, members[0], g);
      var created := if Lookup(shares, KeyOf(snap)).Some? then [] else [snap];
      BackfillCreatesSnapshots(basis, shares + created, g, date, members[1..]);
      assert forall x :: x in members[1..] ==> x in members;
    }
  }

  /** Every created row fills a key that had no row before. */
  lemma {:induction false} BackfillCreatesFresh(
    basis: seq<LedgerEvent>, shares: seq<MemberShare>, g: GroupId, date: Day, members: seq<MemberId>)
    ensures forall s :: s in Backfill(basis, shares, g, date, members).1 ==> Lookup(shares, KeyOf(s)).None?
    decreases |members|
  {
    if |members| > 0 {
      var snap := Snapshot(basis, date, members[0], g);
      var created := if Lookup(shares, KeyOf(snap)).Some? then [] else [snap];
      var next := shares + created;
      BackfillCreatesFresh(basis, next, g, date, members[1..]);
      var rest := Backfill(basis, next, g, date, members[1..]).1;
      assert Backfill(basis, shares, g, date, members).1 == created + rest;
      forall s | s in created + rest
        ensures Lookup(shares, KeyOf(s)).None?
      {
        if s in created {
          assert Lookup(shares, KeyOf(snap)).None? && s == snap;
        } else {
          assert s in rest;
          assert Lookup(next, KeyOf(s)).None?;
          if created != [] {
            LookupAppend(shares, snap, KeyOf(s));
          } else {
            assert next == shares;
          }
        }
      }
    }
  }

  /** Existing rows are untouched, and afterwards every listed member has a
      row for the date: the snapshot of `basis` where there was none. */
  lemma {:induction false} BackfillLookups(
    basis: seq<LedgerEvent>, shares: seq<MemberShare>, g: GroupId, date: Day, members: seq<MemberId>)
    ensures var r := Backfill(basis, shares, g, date, members);
      && (forall k :: Lookup(shares, k).Some? ==> Lookup(r.0, k) == Lookup(shares, k))
      && (forall m :: m in members && Lookup(shares, ShareKey(date, m, g)).None? ==>
            Lookup(r.0, ShareKey(date, m, g)) == Some(Snapshot(basis, date, m, g)))
    decreases |members|
  {
    if |members| > 0 {
      var snap := Snapshot(basis, date, members[0], g);
      var created := if Lookup(shares, KeyOf(snap)).Some? then [] else [snap];
      var next := shares + created;
      BackfillLookups(basis, next, g, date, members[1..]);
      var r := Backfill(basis, shares, g, date, members);
      assert r.0 == Backfill(basis, next, g, date, members[1..]).0;
      forall k
        ensures Lookup(shares, k).Some? ==> Lookup(next, k) == Lookup(shares, k)
        ensures Lookup(shares, k).None? ==> Lookup(next, k) == (if created != [] && k == KeyOf(snap) then Some(snap) else None)
      {
        if created != [] {
          LookupAppend(shares, snap, k);
        } else {
          assert next == shares;
        }
      }
      forall m | m in members && Lookup(shares, ShareKey(date, m, g)).None?
        ensures Lookup(r.0, ShareKey(date, m, g)) == Some(Snapshot(basis, date, m, g))
      {
        if m != members[0] {
          assert m in members[1..];
        }
      }
    }
  }

  /** The unique constraint survives the loop. */
  lemma {:induction false} BackfillUnique(
    basis: seq<LedgerEvent>, shares: seq<MemberShare>, g: GroupId, date: Day, members: seq<MemberId>)
    requires UniqueShareKeys(shares)
    ensures UniqueShareKeys(Backfill(basis, shares, g, date, members).0)
    decreases |members|
  {
    if |members| > 0 {
      var snap := Snapshot(basis, date, members[0], g);
      var created := if Lookup(shares, KeyOf(snap)).Some? then [] else [snap];
      if created != [] {
        UniqueAppend(shares, snap);
      } else {
        assert shares + created == shares;
      }
      BackfillUnique(basis, shares + created, g, date, members[1..]);
    }
  }

  /** Afterwards every listed member has a row for the date. */
  lemma BackfillCovers(
    basis: seq<LedgerEvent>, shares: seq<MemberShare>, g: GroupId, date: Day, members: seq<MemberId>)
    ensures forall m :: m in members ==> Lookup(Backfill(basis, shares, g, date, members).0, ShareKey(date, m, g)).Some?
  {
    BackfillLookups(basis, shares, g, date, members);
  }

  /** Where the table has no row for the date, the loop creates exactly one
      row per listed member, in the order listed. */
  lemma {:induction false} BackfillAllFresh(
    basis: seq<LedgerEvent>, shares: seq<MemberShare>, g: GroupId, date: Day, members: seq<MemberId>)
    requires forall i, j :: 0 <= i < j < |members| ==> members[i] != members[j]
    requires forall m :: m in members ==> Lookup(shares, ShareKey(date, m, g)).None?
    ensures |Backfill(basis, shares, g, date, members).1| == |members|
    ensures forall i :: 0 <= i < |members| ==>
              Backfill(basis, shares, g, date, members).1[i] == Snapshot(basis, date, members[i], g)
    decreases |members|
  {
    if |members| > 0 {
      var snap := Snapshot(basis, date, members[0], g);
      var rest := members[1..];
      forall m | m in rest
        ensures Lookup(shares + [snap], ShareKey(date, m, g)).None?
      {
        var i :| 0 <= i < |rest| && rest[i] == m;
        assert members[i + 1] == m;
        LookupAppend(shares, snap, ShareKey(date, m, g));
      }
      forall i, j | 0 <= i < j < |rest|
        ensures rest[i] != rest[j]
      {
        assert rest[i] == members[i + 1] && rest[j] == members[j + 1];
      }
      BackfillAllFresh(basis, shares + [snap], g, date, rest);
    }
  }

  /** A table has no rows of a group and date exactly when it has no row
      under any member's key for them. */
  lemma NoSharesIffNoKeys(shares: seq<MemberShare>, g: GroupId, date: Day)
    ensures SharesFor(shares, g, date) == [] <==> forall m :: Lookup(shares, ShareKey(date, m, g)).None?
  {
    var r := SharesFor(shares, g, date);
    if forall m :: Lookup(shares, ShareKey(date, m, g)).None? {
      forall s | s in shares
        ensures !(s.group == g && s.date == date)
      {
        var i :| 0 <= i < |shares| && shares[i] == s;
        assert KeyOf(shares[i]) != ShareKey(date, s.member, g);
      }
    }
    if r == [] {
      forall m
        ensures Lookup(shares, ShareKey(date, m, g)).None?
      {
        forall i | 0 <= i < |shares|
          ensures KeyOf(shares[i]) != ShareKey(date, m, g)
        {
          assert shares[i] !in r;
        }
      }
    }
  }

  /** When the table held no row of the group for the date, every listed
      member covered afterwards was covered by a created row. */
  lemma CoveredByCreated(
    shares: seq<MemberShare>, created: seq<MemberShare>, g: GroupId, date: Day, members: seq<MemberId>)
    requires SharesFor(shares, g, date) == []
    requires forall m :: m in members ==> Lookup(shares + created, ShareKey(date, m, g)).Some?
    ensures forall m :: m in members ==> exists s :: s in created && s.member == m
  {
    forall m | m in members
      ensures exists s :: s in created && s.member == m
    {
      var row := Lookup(shares + created, ShareKey(date, m, g)).value;
      assert forall x :: x in shares ==> x !in SharesFor(shares, g, date);
      assert row in created;
    }
  }

  /** `generate_share_snapshots` as written: the rows for `snapshot_date`
      are computed from the balances at the moment of the call, including
      every event dated after that day. */
  function GenerateShareSnapshotsAsWritten(
    events: seq<LedgerEvent>, shares: seq<MemberShare>, g: GroupId, date: Day, members: seq<MemberId>)
    : (r: (seq<MemberShare>, seq<MemberShare>))
    ensures forall s :: s in r.1 ==> s.memberPrincipal == GetMemberPrincipal(events, s.member, g)
    ensures forall s :: s in r.1 ==> s.poolPrincipal == GetPoolBalance(events, g)
    ensures forall s :: s in r.1 ==> s == Snapshot(events, date, s.member, g)
    ensures forall s :: s in r.1 ==> Lookup(shares, KeyOf(s)).None?
    ensures r.0 == shares + r.1
    ensures forall s :: s in r.1 ==> s.date == date && s.group == g && s.member in members
    ensures forall m :: m in members ==> Lookup(r.0, ShareKey(date, m, g)).Some?
    ensures UniqueShareKeys(shares) ==> UniqueShareKeys(r.0)
  {
    BackfillCreatesSnapshots(events, shares, g, date, members);
    BackfillCreatesFresh(events, shares, g, date, members);
    BackfillCovers(events, shares, g, date, members);
    assert UniqueShareKeys(shares) ==> UniqueShareKeys(Backfill(events, shares, g, date, members).0) by {
      if UniqueShareKeys(shares) {
        BackfillUnique(events, shares, g, date, members);
      }
    }
    Backfill(events, shares, g, date, members)
  }

  /** `generate_share_snapshots` computing each row from the balances at the
      end of `snapshot_date`, as a prior-day snapshot means. */
  function GenerateShareSnapshots(
    events: seq<LedgerEvent>, shares: seq<MemberShare>, g: GroupId, date: Day, members: seq<MemberId>)
    : (r: (seq<MemberShare>, seq<MemberShare>))
    ensures forall s :: s in r.1 ==> s.memberPrincipal == GetMemberPrincipal(EventsThrough(events, date), s.member, g)
    ensures forall s :: s in r.1 ==> s.poolPrincipal == GetPoolBalance(EventsThrough(events, date), g)
    ensures forall s :: s in r.1 ==> s == Snapshot(EventsThrough(events, date), date, s.member, g)
    ensures forall s :: s in r.1 ==> Lookup(shares, KeyOf(s)).None?
    ensures r.0 == shares + r.1
    ensures forall s :: s in r.1 ==> s.date == date && s.group == g && s.member in members
    ensures forall m :: m in members ==> Lookup(r.0, ShareKey(date, m, g)).Some?
    ensures UniqueShareKeys(shares) ==> UniqueShareKeys(r.0)
  {
    var basis := EventsThrough(events, date);
    BackfillCreatesSnapshots(basis, shares, g, date, members);
    BackfillCreatesFresh(basis, shares, g, date, members);
    BackfillCovers(basis, shares, g, date, members);
    assert UniqueShareKeys(shares) ==> UniqueShareKeys(Backfill(basis, shares, g, date, members).0) by {
      if UniqueShareKeys(shares) {
        BackfillUnique(basis, shares, g, date, members);
      }
    }
    Backfill(basis, shares, g, date, members)
  }

  /** Events dated after a day are not part of the ledger as it stood then. */
  lemma {:induction false} EventsThroughIgnoresLater(events: seq<LedgerEvent>, later: seq<LedgerEvent>, d: Day)
    requires forall i :: 0 <= i < |later| ==> DayOf(later[i].ts) > d
    ensures EventsThrough(events + later, d) == EventsThrough(events, d)
    decreases |later|
  {
    if |later| == 0 {
      assert events + later == events;
    } else {
      var init := later[..|later| - 1];
      assert (events + later)[..|events + later| - 1] == events + init;
      assert (events + later)[|events + later| - 1] == later[|later| - 1];
      EventsThroughIgnoresLater(events, init, d);
    }
  }

  /** Events dated after the snapshot day do not change the generated rows:
      depositing today cannot raise yesterday's share. */
  lemma GeneratedSnapshotsIgnoreLaterEvents(
    events: seq<LedgerEvent>, later: seq<LedgerEvent>, shares: seq<MemberShare>,
    g: GroupId, date: Day, members: seq<MemberId>)
    requires forall i :: 0 <= i < |later| ==> DayOf(later[i].ts) > date
    ensures GenerateShareSnapshots(events + later, shares, g, date, members)
         == GenerateShareSnapshots(events, shares, g, date, members)
  {
    EventsThroughIgnoresLater(events, later, date);
  }

  /** When nothing is dated after the snapshot day, both readings agree. */
  lemma {:induction false} EventsThroughAll(events: seq<LedgerEvent>, d: Day)
    requires forall i :: 0 <= i < |events| ==> DayOf(events[i].ts) <= d
    ensures EventsThrough(events, d) == events
    decreases |events|
  {
    if |events| > 0 {
      EventsThroughAll(events[..|events| - 1], d);
    }
  }

  lemma GenerationAgreesWithoutLaterEvents(
    events: seq<LedgerEvent>, shares: seq<MemberShare>, g: GroupId, date: Day, members: seq<MemberId>)
    requires forall i :: 0 <= i < |events| ==> DayOf(events[i].ts) <= date
    ensures GenerateShareSnapshots(events, shares, g, date, members)
         == GenerateShareSnapshotsAsWritten(events, shares, g, date, members)
  {
    EventsThroughAll(events, date);
  }
}
