/**
 * The task store: one object holding the whole document (tasks, profile,
 * quest catalog, active quests, configuration and the two id counters),
 * whose methods update it in place. Each method is proved against the
 * value-level rules of Progression, QuestRules and TaskRules. Saving the
 * document is not modelled: every save is a no-op here.
 */
module Store {
  import opened Records
  import opened Progression
  import QuestRules
  import TaskRules

  /** The profile after a task is completed at `now`: the completion's points, the time-of-day
      badge check, the rewards of the quests the completion finishes, then the streak update
      against the task list as it stands after the toggle. */
  function AfterCompletion(p: Profile, c: Config, task: Task, active: seq<Quest>, tasks: seq<Task>, now: Timestamp): Profile
  {
    var pointed := AfterAction(p, c, Complete, task);
    var badged := AfterBadgeCheck(pointed, Hour(now));
    var rewarded := AfterAwards(badged, c, QuestRules.RewardsEarned(active, QuestRules.Wildcard, 1));
    AfterStreak(rewarded, tasks, Day(now))
  }

  /** A completion counts one more completed task, adds the completion's points and the finished
      quests' rewards to the total, and never lowers the level. */
  lemma CompletionEffect(p: Profile, c: Config, task: Task, active: seq<Quest>, tasks: seq<Task>, now: Timestamp)
    ensures var q := AfterCompletion(p, c, task, active, tasks, now);
      && q.totalPoints == p.totalPoints + PointsFor(Complete, task, c) + Sum(QuestRules.RewardsEarned(active, QuestRules.Wildcard, 1))
      && q.stats.tasksCompleted == p.stats.tasksCompleted + 1
      && q.stats.tasksCreated == p.stats.tasksCreated && q.stats.tasksModified == p.stats.tasksModified
      && q.level >= p.level
  {
    var pointed := AfterAction(p, c, Complete, task);
    AfterPointsEffect(p.(stats := Counted(p.stats, Complete)), c, PointsFor(Complete, task, c));
    var badged := AfterBadgeCheck(pointed, Hour(now));
    AfterAwardsEffect(badged, c, QuestRules.RewardsEarned(active, QuestRules.Wildcard, 1));
  }

  /** A new player's first run: the sample data earns the 20 points of a medium 30-minute
      completion and counts one completed task, still at level 1. */
  lemma SampleDataPoints(now: Timestamp)
    ensures var q := AfterAction(DefaultProfile(), DefaultConfig(), Complete, SampleTasks(now)[0]);
      && q.totalPoints == 20 && q.currentLevelPoints == 20 && q.level == 1
      && q.stats.tasksCompleted == 1 && q.stats.tasksCreated == 0
      && q.badges == [] && q.streak == 0
  {
    DefaultCompletionPoints(SampleTasks(now)[0]);
    LeadingCountIsFirstMiss(DefaultThresholds, 20, 1);
  }

  class TaskQuestDatabase {
    var tasks: seq<Task>
    var profile: Profile
    var quests: seq<Quest>
    var activeQuests: seq<Quest>
    var config: Config
    var nextTaskId: int
    var nextQuestId: int

    /** Ids are unique and below their counters, and the profile is well formed. */
    ghost predicate Valid()
      reads this
    {
      && TaskRules.DistinctIds(tasks) && TaskRules.IdsBelow(tasks, nextTaskId)
      && QuestRules.DistinctIds(quests) && QuestRules.IdsBelow(quests, nextQuestId)
      && QuestRules.DistinctIds(activeQuests)
      && ProfileOk(profile)
    }

    /** An empty store with the default profile and configuration. */
    constructor ()
      ensures Valid()
      ensures tasks == [] && quests == [] && activeQuests == []
      ensures profile == DefaultProfile() && config == DefaultConfig()
      ensures nextTaskId == 1 && nextQuestId == 1
    {
      tasks := [];
      profile := DefaultProfile();
      quests := [];
      activeQuests := [];
      config := DefaultConfig();
      nextTaskId := 1;
      nextQuestId := 1;
    }

    /** Installs the default quest catalog, with the first quest active. */
    method InitializeQuests()
      requires Valid()
      modifies this
      ensures Valid()
      ensures quests == DefaultQuests() && activeQuests == [DefaultQuests()[0]] && nextQuestId == 4
      ensures tasks == old(tasks) && profile == old(profile) && config == old(config) && nextTaskId == old(nextTaskId)
    {
      var defaults := DefaultQuests();
      quests := defaults;
      activeQuests := [defaults[0]];
      nextQuestId := 4;
    }

    /** Replaces the task list with the two sample tasks, moves the task counter past them and
        awards the completion points of the one already completed. */
    method InsertSampleData(now: Timestamp)
      requires Valid()
      modifies this
      ensures Valid()
      ensures tasks == SampleTasks(now) && nextTaskId == 3
      ensures profile == AfterAction(old(profile), config, Complete, SampleTasks(now)[0])
      ensures quests == old(quests) && activeQuests == old(activeQuests) && config == old(config)
      ensures nextQuestId == old(nextQuestId)
    {
      var samples := SampleTasks(now);
      tasks := samples;
      nextTaskId := 3;
      CalculatePoints(Complete, samples[0]);
    }

    // -------------------------------------------------------------------
    // Tasks

    /** The tasks, newest first, as a sorted copy. */
    function GetAllTasks(): (r: seq<Task>)
      reads this
      ensures multiset(r) == multiset(tasks)
      ensures TaskRules.NewestFirst(r)
    {
      TaskRules.SortedNewestFirst(tasks)
    }

    /** The task counts: all, completed, pending and pending high-priority ones. */
    function GetStats(): (s: TaskStats)
      reads this
      ensures s.total == |tasks| && s.completed + s.pending == s.total
      ensures 0 <= s.highPriority <= s.pending
      ensures s.completed == |set k | 0 <= k < |tasks| && tasks[k].completed|
      ensures s.highPriority == |set k | 0 <= k < |tasks| && TaskRules.HighPending(tasks[k])|
      ensures s.completed == 0 <==> forall k :: 0 <= k < |tasks| ==> !tasks[k].completed
    {
      TaskRules.NoneCompleted(tasks);
      TaskRules.CompletedCount(tasks);
      TaskRules.HighPendingCount(tasks);
      var total := |tasks|;
      var completed := TaskRules.CountCompleted(tasks);
      TaskStats(total, completed, total - completed, TaskRules.CountHighPending(tasks))
    }

    /** Appends a new task under the next id, counts it and awards its points, then advances the
        quests that creation events match. */
    method CreateTask(input: TaskInput, now: Timestamp) returns (t: Task)
      requires Valid()
      modifies this
      ensures Valid()
      ensures t == TaskRules.NewTask(old(nextTaskId), input, now)
      ensures TaskRules.Lacks(old(tasks), t.id)
      ensures nextTaskId == old(nextTaskId) + 1
      ensures tasks == old(tasks) + [t]
      ensures activeQuests == QuestRules.Survivors(old(activeQuests), "create_tasks", 1)
      ensures profile == AfterAwards(AfterAction(old(profile), config, Create, t), config,
                                     QuestRules.RewardsEarned(old(activeQuests), "create_tasks", 1))
      ensures quests == old(quests) && config == old(config) && nextQuestId == old(nextQuestId)
    {
      t := TaskRules.NewTask(nextTaskId, input, now);
      nextTaskId := nextTaskId + 1;
      tasks := tasks + [t];
      CalculatePoints(Create, t);
      UpdateQuestProgress("create_tasks", 1);
    }

    /** Overwrites the fields an edit carries on the first task with the id, and awards the
        modification points; a missing id is an error that changes nothing. */
    method UpdateTask(id: int, updates: TaskUpdate, now: Timestamp) returns (r: Result<Task>)
      requires Valid()
      modifies this
      ensures Valid()
      ensures TaskRules.TaskIndex(old(tasks), id).None? ==>
        r == Err(TaskNotFound) && tasks == old(tasks) && profile == old(profile)
      ensures TaskRules.TaskIndex(old(tasks), id).Some? ==>
        var k := TaskRules.TaskIndex(old(tasks), id).value;
        var t := TaskRules.Edited(old(tasks)[k], updates, now);
        && r == Ok(t)
        && tasks == old(tasks)[k := t]
        && profile == AfterAction(old(profile), config, Modify, t)
      ensures activeQuests == old(activeQuests) && quests == old(quests) && config == old(config)
      ensures nextTaskId == old(nextTaskId) && nextQuestId == old(nextQuestId)
    {
      var index := TaskRules.TaskIndex(tasks, id);
      if index.None? {
        return Err(TaskNotFound);
      }
      var k := index.value;
      var t := TaskRules.Edited(tasks[k], updates, now);
      tasks := tasks[k := t];
      CalculatePoints(Modify, t);
      r := Ok(t);
    }

    /** Flips the completion flag of the first task with the id. Only a flip to completed
        records the moment and triggers the points, the badge check, the 'completion' quest
        progress and the streak update; a flip back changes nothing else. A missing id is an
        error that changes nothing. */
    method ToggleTaskComplete(id: int, now: Timestamp) returns (r: Result<int>)
      requires Valid()
      modifies this
      ensures Valid()
      ensures TaskRules.TaskIndex(old(tasks), id).None? ==>
        && r == Err(TaskNotFound) && tasks == old(tasks) && profile == old(profile)
        && activeQuests == old(activeQuests)
      ensures TaskRules.TaskIndex(old(tasks), id).Some? ==>
        var k := TaskRules.TaskIndex(old(tasks), id).value;
        var t := TaskRules.Toggled(old(tasks)[k], now);
        && r == Ok(id)
        && tasks == old(tasks)[k := t]
        && (t.completed ==>
              && activeQuests == QuestRules.Survivors(old(activeQuests), QuestRules.Wildcard, 1)
              && profile == AfterCompletion(old(profile), config, t, old(activeQuests), tasks, now))
        && (!t.completed ==> profile == old(profile) && activeQuests == old(activeQuests))
      ensures quests == old(quests) && config == old(config)
      ensures nextTaskId == old(nextTaskId) && nextQuestId == old(nextQuestId)
    {
      var index := TaskRules.TaskIndex(tasks, id);
      if index.None? {
        return Err(TaskNotFound);
      }
      var k := index.value;
      var task := tasks[k];
      var wasCompleted := task.completed;
      task := task.(completed := !task.completed, updatedAt := now);
      if task.completed && !wasCompleted {
        task := task.(completedAt := Some(now));
      }
      tasks := tasks[k := task];
      if task.completed && !wasCompleted {
        CalculatePoints(Complete, task);
        CheckTimeBasedBadges(task);
        UpdateQuestProgress(QuestRules.Wildcard, 1);
        UpdateStreak(Day(now));
      }
      r := Ok(id);
    }

    /** Removes every task with the id; reports whether one was removed. */
    method DeleteTask(id: int) returns (deleted: bool)
      requires Valid()
      modifies this
      ensures Valid()
      ensures tasks == TaskRules.WithoutTask(old(tasks), id)
      ensures deleted <==> !TaskRules.Lacks(old(tasks), id)
      ensures !deleted ==> tasks == old(tasks)
      ensures TaskRules.Lacks(tasks, id)
      ensures profile == old(profile) && activeQuests == old(activeQuests) && quests == old(quests)
      ensures config == old(config) && nextTaskId == old(nextTaskId) && nextQuestId == old(nextQuestId)
    {
      var initialLength := |tasks|;
      tasks := TaskRules.WithoutTask(tasks, id);
      TaskRules.WithoutTaskEffect(old(tasks), id);
      TaskRules.WithoutTaskKeepsIds(old(tasks), id, nextTaskId);
      deleted := |tasks| < initialLength;
    }

    // -------------------------------------------------------------------
    // Gamification

    /** Bumps the action's counter and adds the action's points, multipliers applied and floored. */
    method CalculatePoints(action: Action, task: Task)
      requires Valid()
      modifies this
      ensures Valid()
      ensures profile == AfterAction(old(profile), config, action, task)
      ensures tasks == old(tasks) && activeQuests == old(activeQuests) && quests == old(quests)
      ensures config == old(config) && nextTaskId == old(nextTaskId) && nextQuestId == old(nextQuestId)
    {
      var points: real := 0.0;
      match action {
        case Create =>
          points := config.pointsPerCreate as real;
          profile := profile.(stats := profile.stats.(tasksCreated := profile.stats.tasksCreated + 1));
        case Complete =>
          points := config.pointsPerComplete as real;
          profile := profile.(stats := profile.stats.(tasksCompleted := profile.stats.tasksCompleted + 1));
          if task.priority == High {
            points := points * config.highPriorityMultiplier;
          }
          if task.estimatedTime >= config.longTaskThreshold {
            points := points * config.longTaskMultiplier;
          }
        case Modify =>
          points := config.pointsPerModify as real;
          profile := profile.(stats := profile.stats.(tasksModified := profile.stats.tasksModified + 1));
      }
      assert points.Floor == PointsFor(action, task, config);
      assert profile == old(profile).(stats := Counted(old(profile).stats, action));
      AddPoints(points.Floor);
    }

    /** Adds the points to both totals, then checks the level and grows the skills. */
    method AddPoints(points: int)
      requires Valid()
      modifies this
      ensures Valid()
      ensures profile == AfterPoints(old(profile), config, points)
      ensures tasks == old(tasks) && activeQuests == old(activeQuests) && quests == old(quests)
      ensures config == old(config) && nextTaskId == old(nextTaskId) && nextQuestId == old(nextQuestId)
    {
      profile := profile.(totalPoints := profile.totalPoints + points,
                          currentLevelPoints := profile.currentLevelPoints + points);
      CheckLevelUp();
      AddSkillPoints(points);
    }

    /** Scans the thresholds in order while the total reaches them, and raises the level to the
        scanned one if that is higher. */
    method CheckLevelUp()
      requires Valid()
      modifies this
      ensures Valid()
      ensures profile == CheckedLevel(old(profile), config.levelThresholds)
      ensures tasks == old(tasks) && activeQuests == old(activeQuests) && quests == old(quests)
      ensures config == old(config) && nextTaskId == old(nextTaskId) && nextQuestId == old(nextQuestId)
    {
      var thresholds := config.levelThresholds;
      var newLevel := 1;
      var i := 0;
      while i < |thresholds|
        invariant 0 <= i <= |thresholds|
        invariant forall j :: 0 <= j < i ==> thresholds[j] <= profile.totalPoints
        invariant newLevel == if i == 0 then 1 else i
      {
        if profile.totalPoints >= thresholds[i] {
          newLevel := i + 1;
        } else {
          break;
        }
        i := i + 1;
      }
      LeadingCountIsFirstMiss(thresholds, profile.totalPoints, i);
      if newLevel > profile.level {
        profile := profile.(level := newLevel);
      }
    }

    /** Gives a third of the points, floored, to the efficiency skill, then levels up every skill
        whose points reach the requirement, emptying its points. */
    method AddSkillPoints(points: int)
      requires Valid()
      modifies this
      ensures Valid()
      ensures profile == old(profile).(skills := GrownSkills(old(profile).skills, points / 3, config.skillPointsRequired))
      ensures tasks == old(tasks) && activeQuests == old(activeQuests) && quests == old(quests)
      ensures config == old(config) && nextTaskId == old(nextTaskId) && nextQuestId == old(nextQuestId)
    {
      var skillPoints := points / 3;
      var skills := profile.skills;
      // the efficiency skill is the first key of the profile's skills
      skills := skills[0 := skills[0].(points := skills[0].points + skillPoints)];
      var required := config.skillPointsRequired;
      var i := 0;
      while i < |skills|
        invariant 0 <= i <= |skills| == |old(profile).skills|
        invariant forall k :: 0 <= k < i ==> skills[k] == LevelledUp(Gained(old(profile).skills[k], skillPoints), required)
        invariant forall k :: i <= k < |skills| ==> skills[k] == Gained(old(profile).skills[k], skillPoints)
      {
        if skills[i].points >= required {
          skills := skills[i := skills[i].(level := skills[i].level + 1, points := 0)];
        }
        i := i + 1;
      }
      profile := profile.(skills := skills);
      forall k | 0 <= k < |skills| ensures skills[k].name == SkillNames[k] {
        SkillGrowth(old(profile).skills, skillPoints, required, k);
      }
    }

    /** Grants early_bird for a completion before 9 and night_owl for one from 22 on, each with
        its counter, when the badge is not yet held; a task with no completion moment is ignored. */
    method CheckTimeBasedBadges(task: Task)
      requires Valid()
      modifies this
      ensures Valid()
      ensures task.completedAt.None? ==> profile == old(profile)
      ensures task.completedAt.Some? ==> profile == AfterBadgeCheck(old(profile), Hour(task.completedAt.value))
      ensures tasks == old(tasks) && activeQuests == old(activeQuests) && quests == old(quests)
      ensures config == old(config) && nextTaskId == old(nextTaskId) && nextQuestId == old(nextQuestId)
    {
      if task.completedAt.None? {
        return;
      }
      var completionHour := Hour(task.completedAt.value);
      BadgeCheckEffect(profile, completionHour);
      if completionHour < 9 && EarlyBird !in profile.badges {
        profile := profile.(badges := profile.badges + [EarlyBird],
                            stats := profile.stats.(earlyBirdTasks := profile.stats.earlyBirdTasks + 1));
      }
      if completionHour >= 22 && NightOwl !in profile.badges {
        profile := profile.(badges := profile.badges + [NightOwl],
                            stats := profile.stats.(nightOwlTasks := profile.stats.nightOwlTasks + 1));
      }
    }

    /** When some completed task was completed on `today` and today is not yet counted, extends
        the streak if yesterday was the last active day and restarts it at 1 otherwise. */
    method UpdateStreak(today: int)
      requires Valid()
      modifies this
      ensures Valid()
      ensures profile == AfterStreak(old(profile), tasks, today)
      ensures tasks == old(tasks) && activeQuests == old(activeQuests) && quests == old(quests)
      ensures config == old(config) && nextTaskId == old(nextTaskId) && nextQuestId == old(nextQuestId)
    {
      AfterStreakOk(profile, tasks, today);
      var lastActive := profile.lastActiveDate;
      if CompletedOn(tasks, today) {
        if lastActive == Some(today) {
          return;
        }
        if lastActive == Some(today - 1) {
          profile := profile.(streak := profile.streak + 1);
        } else {
          profile := profile.(streak := 1);
        }
        profile := profile.(lastActiveDate := Some(today));
      }
    }

    // -------------------------------------------------------------------
    // Quests

    /** Walks the active list as it stood on entry: every quest the event matches gains `amount`
        progress, and each one that reaches its target is completed, which rewards it and drops
        it from the (replaced) active list while the walk goes on over the original one. */
    method UpdateQuestProgress(eventType: string, amount: int)
      requires Valid()
      modifies this
      ensures Valid()
      ensures activeQuests == QuestRules.Survivors(old(activeQuests), eventType, amount)
      ensures profile == AfterAwards(old(profile), config, QuestRules.RewardsEarned(old(activeQuests), eventType, amount))
      ensures tasks == old(tasks) && quests == old(quests)
      ensures config == old(config) && nextTaskId == old(nextTaskId) && nextQuestId == old(nextQuestId)
    {
      var original := activeQuests;
      assert QuestRules.DistinctIds(original);
      ghost var kept: seq<Quest> := [];
      ghost var earned: seq<int> := [];
      var i := 0;
      while i < |original|
        invariant 0 <= i <= |original|
        invariant Valid()
        invariant kept == QuestRules.Survivors(original[..i], eventType, amount)
        invariant earned == QuestRules.RewardsEarned(original[..i], eventType, amount)
        invariant activeQuests == kept + original[i..]
        invariant profile == AfterAwards(old(profile), config, earned)
        invariant tasks == old(tasks) && quests == old(quests)
        invariant config == old(config) && nextTaskId == old(nextTaskId) && nextQuestId == old(nextQuestId)
      {
        ghost var post := original[i + 1..];
        QuestRules.WalkStep(original, i, eventType, amount);
        QuestRules.WalkAdvance(original, i, eventType, amount);
        AwardsConcat(old(profile), config, earned, QuestRules.Reward(original[i], eventType, amount));
        AdvanceQuest(original[i], eventType, amount, kept, post);
        kept := kept + QuestRules.Left(original[i], eventType, amount);
        earned := earned + QuestRules.Reward(original[i], eventType, amount);
        i := i + 1;
      }
      assert original[..|original|] == original;
    }

    /** One step of the walk above, on the quest the walk visits, whose id no other active entry
        carries: if the event matches, its progress grows and is written to its active entry, and
        if it then reaches its target the quest is completed. */
    method AdvanceQuest(quest: Quest, eventType: string, amount: int, ghost kept: seq<Quest>, ghost post: seq<Quest>)
      requires Valid()
      requires activeQuests == kept + [quest] + post
      requires QuestRules.Lacks(kept, quest.id) && QuestRules.Lacks(post, quest.id)
      modifies this
      ensures Valid()
      ensures activeQuests == kept + QuestRules.Left(quest, eventType, amount) + post
      ensures profile == AfterAwards(old(profile), config, QuestRules.Reward(quest, eventType, amount))
      ensures tasks == old(tasks) && quests == old(quests)
      ensures config == old(config) && nextTaskId == old(nextTaskId) && nextQuestId == old(nextQuestId)
    {
      var visited := quest;
      if visited.kind == eventType || visited.kind == QuestRules.Wildcard {
        visited := visited.(progress := visited.progress + amount);
        // the active entry with this id is the very quest being advanced
        QuestRules.WithProgressMiddle(kept, quest, post, visited.progress);
        QuestRules.WithProgressDistinct(activeQuests, visited.id, visited.progress);
        activeQuests := QuestRules.WithProgress(activeQuests, visited.id, visited.progress);
        if visited.progress >= visited.target {
          QuestRules.RemoveMiddle(kept, visited, post);
          CompleteQuest(visited);
          assert [visited.reward][..0] == [];
        }
      }
    }

    /** Rewards the quest and drops every active entry with its id. */
    method CompleteQuest(quest: Quest)
      requires Valid()
      modifies this
      ensures Valid()
      ensures profile == AfterPoints(old(profile), config, quest.reward)
      ensures activeQuests == QuestRules.WithoutId(old(activeQuests), quest.id)
      ensures tasks == old(tasks) && quests == old(quests)
      ensures config == old(config) && nextTaskId == old(nextTaskId) && nextQuestId == old(nextQuestId)
    {
      AddPoints(quest.reward);
      QuestRules.WithoutIdDistinct(activeQuests, quest.id);
      activeQuests := QuestRules.WithoutId(activeQuests, quest.id);
    }

    // -------------------------------------------------------------------
    // Configuration

    /** Shallow-merges the patch over the configuration. */
    method UpdateConfig(patch: ConfigPatch)
      requires Valid()
      modifies this
      ensures Valid()
      ensures config == Merge(old(config), patch)
      ensures tasks == old(tasks) && profile == old(profile) && activeQuests == old(activeQuests)
      ensures quests == old(quests) && nextTaskId == old(nextTaskId) && nextQuestId == old(nextQuestId)
    {
      config := Merge(config, patch);
    }
  }
}
