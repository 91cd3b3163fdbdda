/**
 * The progression rules as functions on values: points per action, the level
 * reached for a point total, skill growth, the time-of-day badges and the
 * daily streak. The store's methods are proved against these functions.
 */
module Progression {
  import opened Records

  datatype Action = Create | Complete | Modify

  // ---------------------------------------------------------------------
  // Points for an action

  /** The points an action on a task is worth, multipliers applied and floored. */
  function PointsFor(action: Action, task: Task, c: Config): (points: int)
    ensures action == Create ==> points == c.pointsPerCreate
    ensures action == Modify ==> points == c.pointsPerModify
    ensures action == Complete && task.priority != High && task.estimatedTime < c.longTaskThreshold ==>
              points == c.pointsPerComplete
  {
    match action
    case Create => c.pointsPerCreate
    case Modify => c.pointsPerModify
    case Complete =>
      var base := c.pointsPerComplete as real;
      var withPriority := if task.priority == High then base * c.highPriorityMultiplier else base;
      var withLength := if task.estimatedTime >= c.longTaskThreshold then withPriority * c.longTaskMultiplier else withPriority;
      withLength.Floor
  }

  /** The action counter in the stats that an action bumps. */
  function Counted(s: Stats, action: Action): Stats
  {
    match action
    case Create => s.(tasksCreated := s.tasksCreated + 1)
    case Complete => s.(tasksCompleted := s.tasksCompleted + 1)
    case Modify => s.(tasksModified := s.tasksModified + 1)
  }

  /** With the default configuration, completing a task is worth 20, 40, 30 or 60 points. */
  lemma DefaultCompletionPoints(task: Task)
    ensures PointsFor(Complete, task, DefaultConfig()) ==
      (if task.priority == High then
         (if task.estimatedTime >= 120 then 60 else 40)
       else
         (if task.estimatedTime >= 120 then 30 else 20))
  {
  }

  /** Each action bumps exactly one of the three action counters, by one. */
  lemma CountedBumpsOne(s: Stats, action: Action)
    ensures var t := Counted(s, action);
      t.tasksCreated + t.tasksCompleted + t.tasksModified ==
        s.tasksCreated + s.tasksCompleted + s.tasksModified + 1
    ensures var t := Counted(s, action);
      t.tasksCreated >= s.tasksCreated && t.tasksCompleted >= s.tasksCompleted && t.tasksModified >= s.tasksModified
    ensures var t := Counted(s, action);
      t.totalTimeSpent == s.totalTimeSpent && t.earlyBirdTasks == s.earlyBirdTasks && t.nightOwlTasks == s.nightOwlTasks
  {
  }

  // ---------------------------------------------------------------------
  // Levels

  /** How many thresholds, from the first on, the total reaches before one it misses. */
  function LeadingCount(thresholds: seq<int>, total: int): (k: nat)
    ensures k <= |thresholds|
    ensures forall j :: 0 <= j < k ==> thresholds[j] <= total
    ensures k < |thresholds| ==> total < thresholds[k]
  {
    if thresholds == [] || total < thresholds[0] then 0
    else 1 + LeadingCount(thresholds[1..], total)
  }

  /** The level a scan of the thresholds gives: the count of leading reached thresholds, at least 1. */
  function LevelFor(thresholds: seq<int>, total: int): (level: int)
    ensures level >= 1
  {
    var k := LeadingCount(thresholds, total);
    if k == 0 then 1 else k
  }

  /** The level after a level check: the scanned level if it is higher, else the old one. */
  function CheckedLevel(p: Profile, thresholds: seq<int>): (q: Profile)
    ensures q.level >= p.level
    ensures q.level >= LevelFor(thresholds, p.totalPoints)
    ensures q.level == p.level || q.level == LevelFor(thresholds, p.totalPoints)
    ensures q.(level := p.level) == p
  {
    var level := LevelFor(thresholds, p.totalPoints);
    if level > p.level then p.(level := level) else p
  }

  /** The characterisation of the leading count: it is the first threshold the total misses. */
  lemma {:induction false} LeadingCountIsFirstMiss(thresholds: seq<int>, total: int, k: nat)
    requires k <= |thresholds|
    requires forall j :: 0 <= j < k ==> thresholds[j] <= total
    requires k < |thresholds| ==> total < thresholds[k]
    ensures LeadingCount(thresholds, total) == k
  {
  }

  /** A larger total never scans to a lower level. */
  lemma {:induction false} LevelForMonotone(thresholds: seq<int>, lo: int, hi: int)
    requires lo <= hi
    ensures LevelFor(thresholds, lo) <= LevelFor(thresholds, hi)
  {
  }

  /** On strictly increasing thresholds starting at or below the total, the scanned level
      is the largest 1-based index whose threshold the total reaches. */
  lemma {:induction false} LevelForIsLargestReached(thresholds: seq<int>, total: int)
    requires |thresholds| > 0 && thresholds[0] <= total
    requires forall i, j :: 0 <= i < j < |thresholds| ==> thresholds[i] < thresholds[j]
    ensures var level := LevelFor(thresholds, total);
      1 <= level <= |thresholds| && thresholds[level - 1] <= total &&
      forall i :: level <= i < |thresholds| ==> total < thresholds[i]
  {
    var k := LeadingCount(thresholds, total);
    forall i | k <= i < |thresholds|
      ensures total < thresholds[i]
    {
      assert total < thresholds[k];
      if k < i { assert thresholds[k] < thresholds[i]; }
    }
  }

  /** The default thresholds put 0 points at level 1, 250 at level 2 and 300 at level 3. */
  lemma DefaultLevels()
    ensures LevelFor(DefaultThresholds, 0) == 1
    ensures LevelFor(DefaultThresholds, 250) == 2
    ensures LevelFor(DefaultThresholds, 300) == 3
  {
    var t := DefaultThresholds;
    LeadingCountIsFirstMiss(t, 0, 1);
    LeadingCountIsFirstMiss(t, 250, 2);
    LeadingCountIsFirstMiss(t, 300, 3);
  }

  /** The default thresholds stop at level 10, reached at 5500 points. */
  lemma DefaultTopLevel(total: int)
    requires total >= 5500
    ensures LevelFor(DefaultThresholds, total) == 10
  {
    var t := DefaultThresholds;
    assert t[9] == 5500;
    assert forall j :: 0 <= j < 10 ==> t[j] <= t[9];
    LeadingCountIsFirstMiss(t, total, 10);
  }

  // ---------------------------------------------------------------------
  // Skills

  /** The skill that receives every skill point. */
  const GrowingSkill: string := "efficiency"

  /** A skill after the level-up check: reaching the requirement gives one level and empties the points. */
  function LevelledUp(s: Skill, required: int): Skill
  {
    if s.points >= required then s.(level := s.level + 1, points := 0) else s
  }

  /** A skill after the gain: only the growing skill takes the points. */
  function Gained(s: Skill, gain: int): Skill
  {
    if s.name == GrowingSkill then s.(points := s.points + gain) else s
  }

  /** Every skill after a gain of skill points and the level-up check that follows it. */
  function GrownSkills(skills: seq<Skill>, gain: int, required: int): (r: seq<Skill>)
    ensures |r| == |skills|
  {
    seq(|skills|, k requires 0 <= k < |skills| => LevelledUp(Gained(skills[k], gain), required))
  }

  /** Skill growth keeps the names, raises a level by at most one, and raises it exactly when
      the points (gain included for the growing skill) reach the requirement, discarding any
      surplus; a skill other than the growing one never gains points. */
  lemma SkillGrowth(skills: seq<Skill>, gain: int, required: int, k: int)
    requires 0 <= k < |skills|
    ensures var s, t := skills[k], GrownSkills(skills, gain, required)[k];
      var before := if s.name == GrowingSkill then s.points + gain else s.points;
      && t.name == s.name
      && (before >= required ==> t.level == s.level + 1 && t.points == 0)
      && (before < required ==> t.level == s.level && t.points == before)
      && (s.name != GrowingSkill ==> t.points <= s.points || t.points == 0)
  {
  }

  // ---------------------------------------------------------------------
  // Adding points

  /** The profile after `amount` points: totals raised, level checked, skills grown by a third. */
  function AfterPoints(p: Profile, c: Config, amount: int): (q: Profile)
  {
    var raised := p.(totalPoints := p.totalPoints + amount, currentLevelPoints := p.currentLevelPoints + amount);
    var levelled := CheckedLevel(raised, c.levelThresholds);
    levelled.(skills := GrownSkills(levelled.skills, amount / 3, c.skillPointsRequired))
  }

  /** Adding points raises both point totals by the amount, never lowers the level, leaves the
      level at least the one the thresholds give, and touches nothing but totals, level and skills. */
  lemma AfterPointsEffect(p: Profile, c: Config, amount: int)
    ensures var q := AfterPoints(p, c, amount);
      && q.totalPoints == p.totalPoints + amount
      && q.currentLevelPoints == p.currentLevelPoints + amount
      && q.level >= p.level
      && q.level >= LevelFor(c.levelThresholds, q.totalPoints)
      && (q.level == p.level || q.level == LevelFor(c.levelThresholds, q.totalPoints))
      && q.skills == GrownSkills(p.skills, amount / 3, c.skillPointsRequired)
      && q.streak == p.streak && q.lastActiveDate == p.lastActiveDate
      && q.badges == p.badges && q.stats == p.stats
  {
  }

  /** With the default thresholds, a new player given 250 points is at level 2 and one given
      300 points at level 3. */
  lemma DefaultLevelUps()
    ensures AfterPoints(DefaultProfile(), DefaultConfig(), 250).level == 2
    ensures AfterPoints(DefaultProfile(), DefaultConfig(), 300).level == 3
  {
    DefaultLevels();
  }

  /** The profile after a sequence of point awards, made one after another. */
  function AfterAwards(p: Profile, c: Config, amounts: seq<int>): Profile
    decreases |amounts|
  {
    if amounts == [] then p
    else AfterPoints(AfterAwards(p, c, amounts[..|amounts| - 1]), c, amounts[|amounts| - 1])
  }

  function Sum(s: seq<int>): int
    decreases |s|
  {
    if s == [] then 0 else Sum(s[..|s| - 1]) + s[|s| - 1]
  }

  predicate AllNonNegative(s: seq<int>)
  {
    forall i :: 0 <= i < |s| ==> s[i] >= 0
  }

  /** A sequence of awards adds their sum to the total, never lowers the level, and with
      non-negative awards never lowers the total either. */
  lemma {:induction false} AfterAwardsEffect(p: Profile, c: Config, amounts: seq<int>)
    ensures var q := AfterAwards(p, c, amounts);
      && q.totalPoints == p.totalPoints + Sum(amounts)
      && q.level >= p.level
      && |q.skills| == |p.skills|
      && q.streak == p.streak && q.lastActiveDate == p.lastActiveDate
      && q.badges == p.badges && q.stats == p.stats
    ensures AllNonNegative(amounts) ==> AfterAwards(p, c, amounts).totalPoints >= p.totalPoints
    decreases |amounts|
  {
    if amounts != [] {
      var init := amounts[..|amounts| - 1];
      AfterAwardsEffect(p, c, init);
      AfterPointsEffect(AfterAwards(p, c, init), c, amounts[|amounts| - 1]);
      if AllNonNegative(amounts) {
        assert AllNonNegative(init);
      }
    }
  }

  /** Awards made in two runs amount to the awards of both runs made in one. */
  lemma {:induction false} AwardsConcat(p: Profile, c: Config, first: seq<int>, second: seq<int>)
    ensures AfterAwards(p, c, first + second) == AfterAwards(AfterAwards(p, c, first), c, second)
    decreases |second|
  {
    if second == [] {
      assert first + second == first;
    } else {
      var init := second[..|second| - 1];
      AwardsConcat(p, c, first, init);
      assert (first + second)[..|first + second| - 1] == first + init;
    }
  }

  // ---------------------------------------------------------------------
  // Profile shape

  /** What every profile the store holds satisfies. */
  predicate ProfileOk(p: Profile)
  {
    && p.level >= 1
    && p.streak >= 0
    && (p.lastActiveDate.Some? ==> p.streak >= 1)
    && NoDuplicates(p.badges)
    && |p.skills| == |SkillNames|
    && (forall k :: 0 <= k < |p.skills| ==> p.skills[k].name == SkillNames[k])
  }

  lemma DefaultProfileOk()
    ensures ProfileOk(DefaultProfile())
  {
  }

  lemma AfterPointsOk(p: Profile, c: Config, amount: int)
    requires ProfileOk(p)
    ensures ProfileOk(AfterPoints(p, c, amount))
  {
    var q := AfterPoints(p, c, amount);
    forall k | 0 <= k < |q.skills|
      ensures q.skills[k].name == SkillNames[k]
    {
      SkillGrowth(p.skills, amount / 3, c.skillPointsRequired, k);
    }
  }

  lemma {:induction false} AfterAwardsOk(p: Profile, c: Config, amounts: seq<int>)
    requires ProfileOk(p)
    ensures ProfileOk(AfterAwards(p, c, amounts))
    decreases |amounts|
  {
    if amounts != [] {
      AfterAwardsOk(p, c, amounts[..|amounts| - 1]);
      AfterPointsOk(AfterAwards(p, c, amounts[..|amounts| - 1]), c, amounts[|amounts| - 1]);
    }
  }

  /** The profile after an action on a task: its counter bumped, then its points added. */
  function AfterAction(p: Profile, c: Config, action: Action, task: Task): Profile
  {
    AfterPoints(p.(stats := Counted(p.stats, action)), c, PointsFor(action, task, c))
  }

  lemma AfterActionOk(p: Profile, c: Config, action: Action, task: Task)
    requires ProfileOk(p)
    ensures ProfileOk(AfterAction(p, c, action, task))
  {
    AfterPointsOk(p.(stats := Counted(p.stats, action)), c, PointsFor(action, task, c));
  }

  // ---------------------------------------------------------------------
  // Badges

  /** The profile after the time-of-day badge check for a completion at `hour`. */
  function AfterBadgeCheck(p: Profile, hour: int): Profile
  {
    var early :=
      if hour < 9 && EarlyBird !in p.badges then
        p.(badges := p.badges + [EarlyBird], stats := p.stats.(earlyBirdTasks := p.stats.earlyBirdTasks + 1))
      else p;
    if hour >= 22 && NightOwl !in early.badges then
      early.(badges := early.badges + [NightOwl], stats := early.stats.(nightOwlTasks := early.stats.nightOwlTasks + 1))
    else early
  }

  /** The badge check grants early_bird before 9 and night_owl from 22 on, each only when not
      held, bumping the matching counter; at most one of the two is granted, the badge list
      never gains a duplicate, and nothing else changes. */
  lemma BadgeCheckEffect(p: Profile, hour: int)
    requires NoDuplicates(p.badges)
    ensures var q := AfterBadgeCheck(p, hour);
      && NoDuplicates(q.badges)
      && (hour < 9 && EarlyBird !in p.badges ==>
            q.badges == p.badges + [EarlyBird] && q.stats.earlyBirdTasks == p.stats.earlyBirdTasks + 1
            && q.stats.nightOwlTasks == p.stats.nightOwlTasks)
      && (hour >= 22 && NightOwl !in p.badges ==>
            q.badges == p.badges + [NightOwl] && q.stats.nightOwlTasks == p.stats.nightOwlTasks + 1
            && q.stats.earlyBirdTasks == p.stats.earlyBirdTasks)
      && (!(hour < 9 && EarlyBird !in p.badges) && !(hour >= 22 && NightOwl !in p.badges) ==> q == p)
      && q.(badges := p.badges, stats := p.stats) == p
      && q.stats.(earlyBirdTasks := p.stats.earlyBirdTasks, nightOwlTasks := p.stats.nightOwlTasks) == p.stats
  {
    var q := AfterBadgeCheck(p, hour);
    if hour < 9 && EarlyBird !in p.badges {
      AppendKeepsNoDuplicates(p.badges, EarlyBird);
    } else if hour >= 22 && NightOwl !in p.badges {
      AppendKeepsNoDuplicates(p.badges, NightOwl);
    }
  }

  /** A badge check repeated at the same hour grants nothing more. */
  lemma BadgeCheckIdempotent(p: Profile, hour: int)
    ensures AfterBadgeCheck(AfterBadgeCheck(p, hour), hour) == AfterBadgeCheck(p, hour)
  {
  }

  lemma {:induction false} AppendKeepsNoDuplicates(s: seq<string>, x: string)
    requires NoDuplicates(s) && x !in s
    ensures NoDuplicates(s + [x])
  {
    var t := s + [x];
    forall i, j | 0 <= i < j < |t|
      ensures t[i] != t[j]
    {
      if j == |s| {
        assert t[i] == s[i];
      } else {
        assert t[i] == s[i] && t[j] == s[j];
      }
    }
  }

  // ---------------------------------------------------------------------
  // Streak

  /** Some completed task carries a completion moment on `day`. */
  predicate CompletedOn(tasks: seq<Task>, day: int)
  {
    exists i :: 0 <= i < |tasks| && tasks[i].completed && tasks[i].completedAt.Some? && Day(tasks[i].completedAt.value) == day
  }

  /** The profile after the streak update on `today`. */
  function AfterStreak(p: Profile, tasks: seq<Task>, today: int): Profile
  {
    if !CompletedOn(tasks, today) || p.lastActiveDate == Some(today) then p
    else p.(streak := if p.lastActiveDate == Some(today - 1) then p.streak + 1 else 1,
            lastActiveDate := Some(today))
  }

  /** Without a completion on `today`, or when `today` is already the last active day, the
      update changes nothing. */
  lemma StreakNoOp(p: Profile, tasks: seq<Task>, today: int)
    requires !CompletedOn(tasks, today) || p.lastActiveDate == Some(today)
    ensures AfterStreak(p, tasks, today) == p
  {
  }

  /** Once a day has been counted, a later update on that day changes nothing, whatever the
      tasks then hold: any number of completions in a day counts once. */
  lemma StreakCountsDayOnce(p: Profile, tasks: seq<Task>, later: seq<Task>, today: int)
    requires CompletedOn(tasks, today)
    ensures AfterStreak(AfterStreak(p, tasks, today), later, today) == AfterStreak(p, tasks, today)
  {
  }

  /** Activity on consecutive days extends the streak by one per day; a gap restarts it at 1. */
  lemma StreakOverDays(p: Profile, tasks: seq<Task>, today: int)
    requires CompletedOn(tasks, today) && p.lastActiveDate != Some(today)
    ensures var q := AfterStreak(p, tasks, today);
      && q.lastActiveDate == Some(today)
      && (p.lastActiveDate == Some(today - 1) ==> q.streak == p.streak + 1)
      && (p.lastActiveDate != Some(today - 1) ==> q.streak == 1)
  {
  }

  lemma AfterStreakOk(p: Profile, tasks: seq<Task>, today: int)
    requires ProfileOk(p)
    ensures ProfileOk(AfterStreak(p, tasks, today))
    ensures var q := AfterStreak(p, tasks, today);
      q.(streak := p.streak, lastActiveDate := p.lastActiveDate) == p
  {
  }
}
