/** Read-only audit predicates over the ledger: per-event balance, the
    list of unbalanced events, the pool-versus-members check of a group and
    the full reconciliation report. */
module Reconciliation {
  import opened Wrappers
  import opened Money
  import opened LedgerModels
  import opened Postings
  import opened LedgerState

  /** `verify_event_balance`: whether an event's postings sum to zero, with
      the sum. An id with no postings, or no event, reads as `(true, 0)`. */
  function VerifyEventBalance(events: seq<LedgerEvent>, id: EventId): (r: (bool, Micro))
    ensures r.0 <==> r.1 == 0
    ensures id >= |events| ==> r == (true, 0)
    ensures id < |events| ==> r.1 == Total(events[id].postings)
  {
    var total := if id < |events| then Total(events[id].postings) else 0;
    (total == 0, total)
  }

  /** Every event in the log sums to zero. */
  predicate AllEventsBalanced(events: seq<LedgerEvent>)
  {
    forall i :: 0 <= i < |events| ==> Total(events[i].postings) == 0
  }

  /** `verify_all_events_balance`: the id and sum of every event whose
      postings do not sum to zero, in id order. */
  function VerifyAllEventsBalance(events: seq<LedgerEvent>): (r: seq<(EventId, Micro)>)
    ensures forall p :: p in r ==> p.0 < |events| && p.1 == Total(events[p.0].postings) && p.1 != 0
    ensures forall i :: 0 <= i < |events| && Total(events[i].postings) != 0 ==> (i, Total(events[i].postings)) in r
  {
    UnbalancedFrom(events, 0)
  }

  function UnbalancedFrom(events: seq<LedgerEvent>, i: nat): (r: seq<(EventId, Micro)>)
    requires i <= |events|
    ensures forall p :: p in r ==> i <= p.0 < |events| && p.1 == Total(events[p.0].postings) && p.1 != 0
    ensures forall j :: i <= j < |events| && Total(events[j].postings) != 0 ==> (j, Total(events[j].postings)) in r
    decreases |events| - i
  {
    if i == |events| then []
    else
      var rest := UnbalancedFrom(events, i + 1);
      var total := Total(events[i].postings);
      if total != 0 then [(i, total)] + rest else rest
  }

  /** The list is empty exactly when every event balances. */
  lemma NoUnbalancedIffAllBalanced(events: seq<LedgerEvent>)
    ensures VerifyAllEventsBalance(events) == [] <==> AllEventsBalanced(events)
  {
    var r := VerifyAllEventsBalance(events);
    if r != [] {
      assert r[0] in r;
    }
  }

  /** Each event's own check agrees with the list. */
  lemma EventCheckAgreesWithList(events: seq<LedgerEvent>, id: EventId)
    ensures !VerifyEventBalance(events, id).0 <==> exists p :: p in VerifyAllEventsBalance(events) && p.0 == id
  {
    if id < |events| && Total(events[id].postings) != 0 {
      assert (id, Total(events[id].postings)) in VerifyAllEventsBalance(events);
    }
  }

  // ---------------------------------------------------------------------
  // Pool against members

  datatype PoolCheck = PoolCheck(poolCash: Micro, memberTotals: Micro, roundingReserve: Micro, difference: Micro)

  /** `verify_pool_equals_members`: the group's pool cash against the
      absolute value of its principal and earnings postings together, plus
      its rounding reserve. */
  function VerifyPoolEqualsMembers(events: seq<LedgerEvent>, g: GroupId): (r: (bool, PoolCheck))
    ensures r.0 <==> r.1.difference == 0
    ensures r.1.poolCash == GetPoolBalance(events, g)
    ensures r.1.memberTotals == Abs(Balance(events, MemberAccountsOf(g))) && r.1.memberTotals >= 0
    ensures r.1.roundingReserve == Balance(events, ReserveOf(g))
    ensures r.1.difference == r.1.poolCash - r.1.memberTotals - r.1.roundingReserve
  {
    var pool := GetPoolBalance(events, g);
    var members := Abs(Balance(events, MemberAccountsOf(g)));
    var rounding := Balance(events, ReserveOf(g));
    var diff := pool - members - rounding;
    (diff == 0, PoolCheck(pool, members, rounding, diff))
  }

  // ---------------------------------------------------------------------
  // Full reconciliation

  datatype GroupResult = GroupResult(group: GroupId, balanced: bool, details: PoolCheck)

  datatype ReconciliationReport = ReconciliationReport(
    eventsChecked: nat,
    unbalancedEvents: seq<(EventId, Micro)>,
    groupsChecked: seq<GroupResult>,
    violations: seq<(GroupId, Micro)>,
    passed: bool)

  /** The groups a run examines: the requested one when a truthy id is given
      and it exists, none when it does not exist, and every group when the
      id is absent or 0. */
  function GroupsToCheck(registry: seq<GroupId>, target: Option<GroupId>): (r: seq<GroupId>)
    ensures target.Some? && target.value != 0 ==> (r == [target.value] <==> target.value in registry)
    ensures target.Some? && target.value != 0 && target.value !in registry ==> r == []
    ensures target.None? || target.value == 0 ==> r == registry
  {
    if target.Some? && target.value != 0 then
      (if target.value in registry then [target.value] else [])
    else registry
  }

  function CheckGroups(events: seq<LedgerEvent>, groups: seq<GroupId>): (r: seq<GroupResult>)
    ensures |r| == |groups|
    ensures forall i :: 0 <= i < |groups| ==>
              r[i].group == groups[i] && (r[i].balanced, r[i].details) == VerifyPoolEqualsMembers(events, groups[i])
  {
    if |groups| == 0 then []
    else
      var c := VerifyPoolEqualsMembers(events, groups[0]);
      [GroupResult(groups[0], c.0, c.1)] + CheckGroups(events, groups[1..])
  }

  function Violations(results: seq<GroupResult>): (r: seq<(GroupId, Micro)>)
    ensures r == [] <==> forall i :: 0 <= i < |results| ==> results[i].balanced
    ensures forall v :: v in r <==> exists res :: res in results && !res.balanced && v == (res.group, res.details.difference)
  {
    if |results| == 0 then []
    else
      var rest := Violations(results[1..]);
      assert forall i :: 1 <= i < |results| ==> results[i] == results[1..][i - 1];
      if results[0].balanced then rest
      else [(results[0].group, results[0].details.difference)] + rest
  }

  /** `run_full_reconciliation`: lists the unbalanced events, one pool
      check per examined group in order, and a violation for each group that
      failed it; passes exactly when no event is unbalanced and every
      examined group's pool equals its members. */
  function RunFullReconciliation(events: seq<LedgerEvent>, registry: seq<GroupId>, target: Option<GroupId>)
    : (r: ReconciliationReport)
    ensures r.eventsChecked == |events|
    ensures r.unbalancedEvents == VerifyAllEventsBalance(events)
    ensures |r.groupsChecked| == |GroupsToCheck(registry, target)|
    ensures forall i :: 0 <= i < |r.groupsChecked| ==>
              && r.groupsChecked[i].group == GroupsToCheck(registry, target)[i]
              && (r.groupsChecked[i].balanced, r.groupsChecked[i].details)
                 == VerifyPoolEqualsMembers(events, GroupsToCheck(registry, target)[i])
    ensures forall v :: v in r.violations <==>
              exists res :: res in r.groupsChecked && !res.balanced && v == (res.group, res.details.difference)
    ensures r.passed <==>
              && AllEventsBalanced(events)
              && forall h :: h in GroupsToCheck(registry, target) ==> VerifyPoolEqualsMembers(events, h).0
  {
    var unbalanced := VerifyAllEventsBalance(events);
    var groups := GroupsToCheck(registry, target);
    var results := CheckGroups(events, groups);
    var violations := Violations(results);
    NoUnbalancedIffAllBalanced(events);
    assert (forall i :: 0 <= i < |results| ==> results[i].balanced)
       <==> (forall h :: h in groups ==> VerifyPoolEqualsMembers(events, h).0) by {
      if forall i :: 0 <= i < |results| ==> results[i].balanced {
        forall h | h in groups
          ensures VerifyPoolEqualsMembers(events, h).0
        {
          var i :| 0 <= i < |groups| && groups[i] == h;
          assert results[i].balanced;
        }
      }
    }
    ReconciliationReport(|events|, unbalanced, results, violations, |unbalanced| == 0 && |violations| == 0)
  }
}
