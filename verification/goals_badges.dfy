/** The savings-goal ladder and the badge-eligibility rule. Contribution
    totals are micro-units, as in the ledger; goal amounts and badge
    thresholds are whole currency units. */
module GoalsBadges {
  import opened Wrappers
  import opened Money

  // ---------------------------------------------------------------------
  // calculate_next_goal

  /** The goal ladder, in currency units. */
  const GoalLadder: seq<int> := [100, 250, 500, 1000, 2500, 5000, 10000]

  /** Beyond the ladder, the next goal is this much further on. */
  const GoalStep: int := 5000

  /** A next goal: its amount and what remains to reach it. The progress
      percentage is a float and is not part of the model. */
  datatype Goal = Goal(amount: Micro, remaining: Micro)

  predicate Ascending(s: seq<int>)
  {
    forall i, j :: 0 <= i < j < |s| ==> s[i] < s[j]
  }

  /** The first rung, scanning in order, that lies above `current`. */
  function FirstAbove(ladder: seq<int>, current: Micro): (r: Option<int>)
    ensures r.Some? ==> r.value in ladder && current < r.value * Unit
    ensures r.None? <==> forall i :: 0 <= i < |ladder| ==> ladder[i] * Unit <= current
  {
    if |ladder| == 0 then None
    else if current < ladder[0] * Unit then Some(ladder[0])
    else
      var r := FirstAbove(ladder[1..], current);
      assert forall i :: 1 <= i < |ladder| ==> ladder[i] == ladder[1..][i - 1];
      r
  }

  /** On an ascending ladder the first rung above is the least one above. */
  lemma {:induction false} FirstAboveIsLeast(ladder: seq<int>, current: Micro, g: int)
    requires Ascending(ladder)
    requires g in ladder && current < g * Unit
    ensures FirstAbove(ladder, current).Some? && FirstAbove(ladder, current).value <= g
    decreases |ladder|
  {
    if current >= ladder[0] * Unit {
      var i :| 0 <= i < |ladder| && ladder[i] == g;
      assert i > 0;
      assert ladder[1..][i - 1] == g;
      assert Ascending(ladder[1..]) by {
        forall a, b | 0 <= a < b < |ladder[1..]|
          ensures ladder[1..][a] < ladder[1..][b]
        {
          assert ladder[1..][a] == ladder[a + 1] && ladder[1..][b] == ladder[b + 1];
        }
      }
      FirstAboveIsLeast(ladder[1..], current, g);
    } else {
      var i :| 0 <= i < |ladder| && ladder[i] == g;
      assert i == 0 || ladder[0] < ladder[i];
    }
  }

  /** `calculate_next_goal`: below 10000 the least rung above the total,
      with a positive remainder; from 10000 on, 5000 beyond the total. */
  function NextGoal(current: Micro): (r: Goal)
    ensures current < 10000 * Unit ==>
              && r.amount / Unit in GoalLadder && r.amount % Unit == 0
              && current < r.amount
              && (forall g :: g in GoalLadder && current < g * Unit ==> r.amount <= g * Unit)
              && r.remaining == r.amount - current && r.remaining > 0
    ensures current >= 10000 * Unit ==> r == Goal(current + GoalStep * Unit, GoalStep * Unit)
  {
    match FirstAbove(GoalLadder, current)
    case Some(g) =>
      assert forall h :: h in GoalLadder && current < h * Unit ==> g <= h by {
        forall h | h in GoalLadder && current < h * Unit
          ensures g <= h
        {
          FirstAboveIsLeast(GoalLadder, current, h);
        }
      }
      Goal(g * Unit, g * Unit - current)
    case None =>
      assert GoalLadder[6] == 10000;
      Goal(current + GoalStep * Unit, GoalStep * Unit)
  }

  /** A larger total never has a nearer goal on the ladder. */
  lemma NextGoalMonotone(c1: Micro, c2: Micro)
    requires c1 <= c2 < 10000 * Unit
    ensures NextGoal(c1).amount <= NextGoal(c2).amount
  {
    var g2 := NextGoal(c2).amount / Unit;
    assert NextGoal(c2).amount == g2 * Unit;
  }

  lemma NextGoalExamples()
    ensures NextGoal(0) == Goal(100 * Unit, 100 * Unit)
    ensures NextGoal(100 * Unit) == Goal(250 * Unit, 150 * Unit)
    ensures NextGoal(9999 * Unit) == Goal(10000 * Unit, Unit)
    ensures NextGoal(12000 * Unit) == Goal(17000 * Unit, 5000 * Unit)
  {
    assert NextGoal(0).amount == 100 * Unit;
    assert NextGoal(100 * Unit).amount == 250 * Unit;
    assert NextGoal(9999 * Unit).amount == 10000 * Unit;
  }

  // ---------------------------------------------------------------------
  // check_and_award_badges

  datatype Badge = Badge(id: int, name: string, criteriaType: string, criteriaValue: int)

  /** The two kinds of criteria; any other kind is never met. */
  predicate Eligible(b: Badge, totalContributions: Micro, memberships: nat)
  {
    || (b.criteriaType == "total_contributions" && totalContributions >= b.criteriaValue * Unit)
    || (b.criteriaType == "group_count" && memberships >= b.criteriaValue)
  }

  function IdsOf(badges: seq<Badge>): set<int>
  {
    set b | b in badges :: b.id
  }

  /** The badges to award, in catalogue order: those the user does not hold
      yet and whose criterion the user's metrics meet. */
  function BadgesToAward(catalogue: seq<Badge>, held: set<int>, totalContributions: Micro, memberships: nat)
    : (r: seq<Badge>)
    ensures forall b :: b in r <==> b in catalogue && b.id !in held && Eligible(b, totalContributions, memberships)
    ensures |r| <= |catalogue|
    ensures (forall i :: 0 <= i < |catalogue| ==>
               catalogue[i].id in held || !Eligible(catalogue[i], totalContributions, memberships)) ==> r == []
  {
    if |catalogue| == 0 then []
    else
      var b := catalogue[0];
      var rest := BadgesToAward(catalogue[1..], held, totalContributions, memberships);
      assert forall x :: x in catalogue <==> x == b || x in catalogue[1..];
      assert forall i :: 1 <= i < |catalogue| ==> catalogue[i] == catalogue[1..][i - 1];
      if b.id !in held && Eligible(b, totalContributions, memberships) then [b] + rest else rest
  }

  /** Once the awarded badges are recorded, checking again with the same
      metrics awards nothing more. */
  lemma AwardingIsIdempotent(catalogue: seq<Badge>, held: set<int>, totalContributions: Micro, memberships: nat)
    ensures var first := BadgesToAward(catalogue, held, totalContributions, memberships);
      BadgesToAward(catalogue, held + IdsOf(first), totalContributions, memberships) == []
  {
    var first := BadgesToAward(catalogue, held, totalContributions, memberships);
    var second := BadgesToAward(catalogue, held + IdsOf(first), totalContributions, memberships);
    forall i | 0 <= i < |catalogue| && catalogue[i].id !in held && Eligible(catalogue[i], totalContributions, memberships)
      ensures catalogue[i].id in IdsOf(first)
    {
      assert catalogue[i] in first;
    }
  }

  /** Higher metrics keep every badge the lower ones would award. */
  lemma AwardingIsMonotone(
    catalogue: seq<Badge>, held: set<int>, t1: Micro, m1: nat, t2: Micro, m2: nat, b: Badge)
    requires t1 <= t2 && m1 <= m2
    requires b in BadgesToAward(catalogue, held, t1, m1)
    ensures b in BadgesToAward(catalogue, held, t2, m2)
  {
  }

  /** A held badge is never returned, whatever the metrics. */
  lemma HeldBadgesNeverReturned(catalogue: seq<Badge>, held: set<int>, totalContributions: Micro, memberships: nat)
    ensures forall b :: b in BadgesToAward(catalogue, held, totalContributions, memberships) ==> b.id !in held
  {
  }

  /** The two scenarios the test suite walks through: a first contribution
      of 50 earns the badge for 1; a badge for 100 earned by a contribution
      of 100 is not awarded again after another 50. */
  lemma BadgeScenarios()
    ensures var first := Badge(1, "First Contribution", "total_contributions", 1);
      BadgesToAward([first], {}, 50 * Unit, 1) == [first]
    ensures var steady := Badge(2, "Steady Saver", "total_contributions", 100);
      && BadgesToAward([steady], {}, 100 * Unit, 1) == [steady]
      && BadgesToAward([steady], {2}, 150 * Unit, 1) == []
  {
    var first := Badge(1, "First Contribution", "total_contributions", 1);
    assert [first][1..] == [];
    var steady := Badge(2, "Steady Saver", "total_contributions", 100);
    assert [steady][1..] == [];
  }
}
