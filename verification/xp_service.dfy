/** Experience points, levels and contribution streaks of a user, as pure
    transitions on the user's XP record. A user without a record is `None`;
    the clock is a parameter. */
module XpService {
  import opened Wrappers
  import opened Calendar

  const XpPerLevel: int := 100
  const MaxStreakBonus: int := 50

  datatype UserXp = UserXp(
    totalXp: int,
    currentLevel: int,
    currentStreak: int,
    longestStreak: int,
    lastContribution: Option<Instant>)

  /** The record `award_xp` starts from when the user has none. */
  const FreshRecord: UserXp := UserXp(0, 1, 0, 0, None)

  /** The record a user's first streak update creates: a one-day streak and
      no bonus. The longest streak keeps its column default, taken as 0. */
  function FirstStreakRecord(now: Instant): UserXp
  {
    UserXp(0, 1, 1, 0, Some(now))
  }

  // ---------------------------------------------------------------------
  // Levels

  /** Level `level` covers the XP totals from `(level - 1) * 100` up to, not
      including, `level * 100`. */
  predicate IsLevelOf(total: int, level: int)
  {
    (level - 1) * XpPerLevel <= total < level * XpPerLevel
  }

  /** `total_xp // 100 + 1` (floor division, as Python's `//`). */
  function LevelFor(total: int): (level: int)
    ensures IsLevelOf(total, level)
  {
    total / XpPerLevel + 1
  }

  /** A total lies in exactly one level. */
  lemma LevelUnique(total: int, a: int, b: int)
    requires IsLevelOf(total, a) && IsLevelOf(total, b)
    ensures a == b
  {
    assert (a - 1) * XpPerLevel < b * XpPerLevel;
    assert (b - 1) * XpPerLevel < a * XpPerLevel;
  }

  /** More XP never means a lower level. */
  lemma LevelMonotone(t1: int, t2: int)
    requires t1 <= t2
    ensures LevelFor(t1) <= LevelFor(t2)
  {
    var a := LevelFor(t1);
    var b := LevelFor(t2);
    assert (a - 1) * XpPerLevel < b * XpPerLevel;
  }

  // ---------------------------------------------------------------------
  // award_xp

  datatype AwardOutcome = AwardOutcome(
    xpAwarded: int,
    totalXp: int,
    currentLevel: int,
    leveledUp: bool,
    xpToNextLevel: int)

  function RecordOrFresh(rec: Option<UserXp>): UserXp
  {
    if rec.Some? then rec.value else FreshRecord
  }

  /** `award_xp`: adds the amount to the total, sets the level from the new
      total and reports a level-up exactly when that level exceeds the
      stored one; the XP still needed to reach the next level is between 1
      and 100. Streak fields are untouched. */
  function AwardXp(rec: Option<UserXp>, amount: int): (r: (UserXp, AwardOutcome))
    ensures r.0.totalXp == RecordOrFresh(rec).totalXp + amount
    ensures IsLevelOf(r.0.totalXp, r.0.currentLevel)
    ensures r.1.leveledUp <==> r.0.currentLevel > RecordOrFresh(rec).currentLevel
    ensures 1 <= r.1.xpToNextLevel <= XpPerLevel
    ensures r.0.totalXp + r.1.xpToNextLevel == r.0.currentLevel * XpPerLevel
    ensures r.1 == AwardOutcome(amount, r.0.totalXp, r.0.currentLevel, r.1.leveledUp, r.1.xpToNextLevel)
    ensures r.0.currentStreak == RecordOrFresh(rec).currentStreak
    ensures r.0.longestStreak == RecordOrFresh(rec).longestStreak
    ensures r.0.lastContribution == RecordOrFresh(rec).lastContribution
  {
    var before := RecordOrFresh(rec);
    var total := before.totalXp + amount;
    var level := LevelFor(total);
    var after := before.(totalXp := total, currentLevel := level);
    (after, AwardOutcome(amount, total, level, level > before.currentLevel, XpPerLevel - total % XpPerLevel))
  }

  /** Two awards in a row leave the same record as one award of their sum. */
  lemma AwardXpAdditive(rec: Option<UserXp>, a: int, b: int)
    ensures AwardXp(Some(AwardXp(rec, a).0), b).0 == AwardXp(rec, a + b).0
  {
    var r1 := AwardXp(rec, a).0;
    var r2 := AwardXp(Some(r1), b).0;
    var r3 := AwardXp(rec, a + b).0;
    assert r2.totalXp == r3.totalXp;
    LevelUnique(r2.totalXp, r2.currentLevel, r3.currentLevel);
  }

  /** Awarding a non-negative amount never lowers the level a record's total
      stands at, and a total of 100 XP or more is past level 1. */
  lemma AwardNeverLowersLevel(rec: Option<UserXp>, amount: int)
    requires amount >= 0
    ensures AwardXp(rec, amount).0.currentLevel >= LevelFor(RecordOrFresh(rec).totalXp)
    ensures AwardXp(rec, amount).0.totalXp >= XpPerLevel ==> AwardXp(rec, amount).0.currentLevel >= 2
  {
    var r := AwardXp(rec, amount).0;
    LevelMonotone(RecordOrFresh(rec).totalXp, r.totalXp);
    LevelUnique(r.totalXp, r.currentLevel, LevelFor(r.totalXp));
    if r.totalXp >= XpPerLevel {
      LevelMonotone(XpPerLevel, r.totalXp);
    }
  }

  // ---------------------------------------------------------------------
  // update_streak

  /** The bonus for a streak: two points a day, at most fifty. */
  function StreakBonus(streak: int): (b: int)
    ensures b <= MaxStreakBonus
    ensures streak >= 0 ==> b >= 0
    ensures streak <= MaxStreakBonus / 2 ==> b == 2 * streak
    ensures streak * 2 >= MaxStreakBonus ==> b == MaxStreakBonus
    ensures b == 2 * streak || b == MaxStreakBonus
  {
    if streak * 2 < MaxStreakBonus then streak * 2 else MaxStreakBonus
  }

  /** The streak after a contribution at `now`: one more after a gap of
      exactly one day, back to 1 after a longer gap or with no previous
      contribution, unchanged on the same day (or with the clock behind). */
  function NextStreak(u: UserXp, now: Instant): (s: int)
    ensures u.lastContribution.None? ==> s == 1
    ensures u.lastContribution.Some? && WholeDaysBetween(u.lastContribution.value, now) == 1 ==> s == u.currentStreak + 1
    ensures u.lastContribution.Some? && WholeDaysBetween(u.lastContribution.value, now) > 1 ==> s == 1
    ensures u.lastContribution.Some? && WholeDaysBetween(u.lastContribution.value, now) <= 0 ==> s == u.currentStreak
  {
    match u.lastContribution
    case None => 1
    case Some(last) =>
      var gap := WholeDaysBetween(last, now);
      if gap == 1 then u.currentStreak + 1
      else if gap > 1 then 1
      else u.currentStreak
  }

  /** `update_streak`: returns the new record and the current streak. A
      first-ever call creates the record with a one-day streak and no bonus;
      otherwise the streak moves by the day gap, the longest streak keeps
      up with it, the bonus is added to the total XP and the level is left
      as stored. */
  function UpdateStreak(rec: Option<UserXp>, now: Instant): (r: (UserXp, int))
    ensures r.1 == r.0.currentStreak
    ensures r.0.lastContribution == Some(now)
    ensures rec.None? ==> r.0 == FirstStreakRecord(now) && r.1 == 1
    ensures rec.Some? ==> r.0.currentStreak == NextStreak(rec.value, now)
    ensures rec.Some? ==> r.0.longestStreak >= r.0.currentStreak && r.0.longestStreak >= rec.value.longestStreak
    ensures rec.Some? ==> (r.0.longestStreak == rec.value.longestStreak || r.0.longestStreak == r.0.currentStreak)
    ensures rec.Some? ==> r.0.totalXp == rec.value.totalXp + StreakBonus(r.0.currentStreak)
    ensures rec.Some? ==> r.0.currentLevel == rec.value.currentLevel
  {
    match rec
    case None => (FirstStreakRecord(now), 1)
    case Some(u) =>
      var streak := NextStreak(u, now);
      var longest := if streak > u.longestStreak then streak else u.longestStreak;
      var after := UserXp(u.totalXp + StreakBonus(streak), u.currentLevel, streak, longest, Some(now));
      (after, streak)
  }

  /** The record after a streak update at each instant in turn. */
  function UpdateStreakAt(u: UserXp, times: seq<Instant>): UserXp
    decreases |times|
  {
    if |times| == 0 then u else UpdateStreakAt(UpdateStreak(Some(u), times[0]).0, times[1..])
  }

  /** Contributing once a day, exactly a day apart, grows the streak by one
      per contribution and the longest streak never falls behind it. */
  lemma {:induction false} DailyContributionsGrowStreak(u: UserXp, last: Instant, times: seq<Instant>)
    requires u.lastContribution == Some(last)
    requires u.longestStreak >= u.currentStreak
    requires forall i :: 0 <= i < |times| ==> times[i] == last + (i + 1) * SecondsPerDay
    ensures UpdateStreakAt(u, times).currentStreak == u.currentStreak + |times|
    ensures UpdateStreakAt(u, times).longestStreak >= UpdateStreakAt(u, times).currentStreak
    decreases |times|
  {
    if |times| > 0 {
      var next := UpdateStreak(Some(u), times[0]).0;
      assert WholeDaysBetween(last, times[0]) == 1;
      assert next.currentStreak == u.currentStreak + 1;
      var rest := times[1..];
      forall i | 0 <= i < |rest|
        ensures rest[i] == times[0] + (i + 1) * SecondsPerDay
      {
        assert rest[i] == times[i + 1];
      }
      DailyContributionsGrowStreak(next, times[0], rest);
    }
  }

  /** Contributing again the same day keeps the streak but pays the bonus
      again. */
  lemma SameDayKeepsStreak(u: UserXp, now: Instant)
    ensures var once := UpdateStreak(Some(u), now).0;
      && UpdateStreak(Some(once), now).0.currentStreak == once.currentStreak
      && UpdateStreak(Some(once), now).0.totalXp == once.totalXp + StreakBonus(once.currentStreak)
  {
    assert WholeDaysBetween(now, now) == 0;
  }

  /** Since the streak bonus does not recompute the level, the stored level
      can lag the total; the next award then reports a level-up even when it
      awards nothing. */
  lemma StreakBonusLeavesLevelBehind()
    ensures var u := UserXp(95, 1, 2, 2, Some(0));
      && UpdateStreak(Some(u), SecondsPerDay).0.totalXp == 101
      && UpdateStreak(Some(u), SecondsPerDay).0.currentLevel == 1
      && LevelFor(101) == 2
      && AwardXp(Some(UpdateStreak(Some(u), SecondsPerDay).0), 0).1.leveledUp
  {
    var u := UserXp(95, 1, 2, 2, Some(0));
    assert WholeDaysBetween(0, SecondsPerDay) == 1;
    assert StreakBonus(3) == 6;
  }
}
