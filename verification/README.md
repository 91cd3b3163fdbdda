# TaskQuest store, modelled in Dafny

TaskQuest is a desktop to-do list with game mechanics. Creating, editing and completing tasks
earns points, and points raise the player's level and skills. Completing tasks early in the
morning or late at night earns badges. Completing on consecutive days builds a daily streak.
Quests reward a run of task events with bonus points.

All of this lives in one document owned by the `TaskQuestDatabase` object. The document holds:

- the tasks;
- the player profile;
- the quest catalog;
- the active quests;
- the tunable configuration;
- two id counters.

The main process answers the user interface's requests. Some request handlers do more than
forward to the store: they report the level, show the badge board, create, activate and
deactivate quests, and reset or grant things as an administrator.

The project models that store and those handlers:

| module | file | what it holds |
|---|---|---|
| `Records` | records.dfy | The document's records and the defaults a new store starts from. |
| `Progression` | progression.dfy | Points, levels, skills, badges and the streak, as functions on values with their lemmas. |
| `QuestRules` | quest_rules.dfy | What a task event does to the active quests, and the id bookkeeping of quest lists. |
| `TaskRules` | task_rules.dfy | Building, editing and toggling tasks, lookup and removal by id, the newest-first listing and the counts. |
| `Store` | store.dfy | The class `TaskQuestDatabase`. Its fields are the document and its methods update it in place. Each method is proved against the functions of the modules above. |
| `Handlers` | handlers.dfy | The handler bodies: the level report and the badge board as functions, and the quest and administration handlers as methods on the store object. |

The class invariant `Valid()` holds throughout:

- task ids are distinct and below `nextTaskId`;
- quest ids in the catalog are distinct and below `nextQuestId`;
- active quest ids are distinct;
- the profile is well formed: level at least 1, streak not negative, no duplicate badge, and the three skills in their fixed order.

Every method keeps this invariant.

Modelling choices:

- Moments are local wall-clock milliseconds. The calendar day and the hour are read from them.
- The streak's "today" and "yesterday" are day numbers.
- Multipliers are exact reals, and points are floored.
- Saving the document is a no-op.

## Model

| member | source | states |
|---|---|---|
| `Records.Day` | src/database.js:398-405 | The calendar day that `toDateString` compares: the day whose span of milliseconds contains the moment. |
| `Records.DefaultProfile` | src/database.js:21-41 | Definition, no contract: the new player's profile (0 points, level 1, no streak, no badges, three skills at 0, all counters 0). Its well-formedness is `Progression.DefaultProfileOk`. |
| `Records.DefaultConfig` | src/database.js:44-54 | Definition, no contract: the default tunables 24, 10, 20, 5, 2, 1.5, 120, the ten thresholds and 50. `Progression.DefaultLevels` and `Progression.DefaultCompletionPoints` state what they give. |
| `Records.DefaultQuests` | src/database.js:155-189 | Definition, no contract: the three catalog quests with ids 1 to 3, the first active. `Store.TaskQuestDatabase.InitializeQuests` installs them. |
| `Records.SampleTasks` | src/database.js:122-145 | Definition, no contract: the two sample tasks, the first medium, 30 minutes and already completed, the second high, 15 minutes and pending. |
| `Records.Hour` | src/database.js:380 | The completion hour that the badge check reads is an hour of the day, 0 to 23. |
| `Records.Merge` | src/database.js:481-484 | The shallow merge `{...config, ...newConfig}`. Each of the nine known tunables takes the patch's value when the patch carries it and keeps the old one otherwise. Extra keys are the union of both sides: a key in the patch takes the patch's value, and a key outside it keeps its old value. |
| `Progression.PointsFor` | src/database.js:299-327 | Create and modify are worth their configured points. A plain completion is worth `pointsPerComplete`. The multipliers apply only to completions. |
| `Progression.DefaultCompletionPoints` | src/database.js:308-318 | With the default configuration, a completion is worth 20, 40 for a high-priority task, 30 for a long task and 60 for a long high-priority task. This includes the 150-minute high-priority case. |
| `Progression.Counted` | src/database.js:304-322 | Definition, no contract: the stats with the counter of the action raised. Specified by `Progression.CountedBumpsOne`. |
| `Progression.CountedBumpsOne` | src/database.js:304-322 | Each action bumps exactly one of the three action counters, by one. The time spent and the badge counters stay. |
| `Progression.LeadingCount` | src/database.js:344-351 | The loop's stopping point: every threshold before it is reached, and the total misses the one at it. |
| `Progression.LevelFor` | src/database.js:342-351 | The scanned level is at least 1. |
| `Progression.CheckedLevel` | src/database.js:340-356 | The level never drops. It ends at least the scanned level, and it is either unchanged or the scanned level. Nothing else in the profile changes. |
| `Progression.LeadingCountIsFirstMiss` | src/database.js:344-351 | Any k whose leading thresholds are all reached and whose next threshold is missed is the scan's result. This ties the loop to the function. |
| `Progression.LevelForMonotone` | src/database.js:340-351 | More points never scan to a lower level. |
| `Progression.LevelForIsLargestReached` | src/database.js:340-351 | On strictly increasing thresholds whose first one the total reaches, the scanned level is the largest 1-based index whose threshold is reached. |
| `Progression.DefaultLevels` | src/database.js:52 | With the default thresholds: 0 points is level 1, 250 is level 2 and 300 is level 3. |
| `Progression.DefaultTopLevel` | src/database.js:52 | With the default thresholds, every total from 5500 on is level 10. |
| `Progression.GrownSkills` | src/database.js:358-375 | Skill growth keeps the number of skills. |
| `Progression.SkillGrowth` | src/database.js:358-375 | Names are kept. A skill gains exactly one level when its points, including the gain for `efficiency`, reach the requirement, and its points are then emptied so the surplus is lost. Otherwise it keeps its level and points. Skills other than `efficiency` never gain points. |
| `Progression.AfterPoints` | src/database.js:329-338 | Definition, no contract: both totals raised, then the level check, then the skill growth. Specified by `Progression.AfterPointsEffect` and `Progression.AfterPointsOk`. |
| `Progression.AfterPointsEffect` | src/database.js:329-338 | Adding points raises `totalPoints` and `currentLevelPoints` by the amount. The level never drops and is at least the scanned level. Skills grow by a third of the amount, floored. Streak, badges and stats stay. |
| `Progression.DefaultLevelUps` | src/database.js:329-356 | A new player given 250 points is at level 2, and one given 300 points is at level 3. |
| `Progression.AfterAwards` | src/database.js:447-452 | Definition, no contract: the rewards added one after another, each as `addPoints`. Specified by `Progression.AfterAwardsEffect`, `Progression.AwardsConcat` and `Progression.AfterAwardsOk`. |
| `Progression.AfterAwardsEffect` | src/database.js:447-452 | A run of quest rewards adds their sum to the total and never lowers the level. Non-negative rewards never lower the total. |
| `Progression.AwardsConcat` | src/database.js:435-445 | Rewards granted in two runs equal those runs granted in one. |
| `Progression.DefaultProfileOk` | src/database.js:21-41 | The new player's profile is well formed. |
| `Progression.AfterPointsOk` | src/database.js:329-338 | Adding points keeps the profile well formed. |
| `Progression.AfterAwardsOk` | src/database.js:447-452 | Quest rewards keep the profile well formed. |
| `Progression.AfterActionOk` | src/database.js:299-327 | Awarding an action keeps the profile well formed. |
| `Progression.AfterAction` | src/database.js:299-327 | Definition, no contract: the action's counter raised, then its points added. Specified by `Progression.AfterActionOk`, `Progression.CountedBumpsOne` and `Progression.PointsFor`. |
| `Progression.AfterBadgeCheck` | src/database.js:377-395 | Definition, no contract: the time-of-day badge grant. Specified by `Progression.BadgeCheckEffect` and `Progression.BadgeCheckIdempotent`. |
| `Progression.BadgeCheckEffect` | src/database.js:377-395 | Before 9, `early_bird` is granted with its counter. From 22 on, `night_owl` is granted with its counter. A badge already held is never granted again, at most one badge is granted, there are never duplicates, and nothing else changes. |
| `Progression.BadgeCheckIdempotent` | src/database.js:377-395 | A second check at the same hour grants nothing. |
| `Progression.AppendKeepsNoDuplicates` | src/database.js:384 | Appending a badge that is not held keeps the badges free of duplicates. |
| `Progression.CompletedOn` | src/database.js:402-405 | Definition, no contract: some completed task has a completion moment on the given day. |
| `Progression.AfterStreak` | src/database.js:397-428 | Definition, no contract: the streak update for a given today. Specified by `Progression.StreakNoOp`, `Progression.StreakOverDays`, `Progression.StreakCountsDayOnce` and `Progression.AfterStreakOk`. |
| `Progression.StreakCountsDayOnce` | src/database.js:407-411 | Once a day is counted, a later update on the same day changes nothing. |
| `Progression.StreakNoOp` | src/database.js:408-413 | With no completion on the day, or when the day is already the last active day, the update changes nothing, whatever the profile. |
| `Progression.StreakOverDays` | src/database.js:414-425 | Activity on the day after the last active day extends the streak by one. Any other day restarts it at 1. Either way the day becomes the last active day. |
| `Progression.AfterStreakOk` | src/database.js:397-428 | The streak update keeps the profile well formed and touches only the streak and the last active day. |
| `QuestRules.Matches` | src/database.js:437 | Definition, no contract: the quest's kind is the event's type or the wildcard `completion`. |
| `QuestRules.Advanced` | src/database.js:437-438 | Definition, no contract: a matched quest's progress rises by the amount. |
| `QuestRules.Completes` | src/database.js:437-440 | Definition, no contract: the quest matches and the raised progress reaches the target. |
| `QuestRules.Survivors` | src/database.js:435-455 | Definition, no contract: the active list after an event. Specified by `QuestRules.SurvivorOrRewarded`, `QuestRules.NotCompletedStays`, `QuestRules.CompletedLeaves`, `QuestRules.SurvivorsShortOfTarget` and `QuestRules.SurvivorsDistinct`. |
| `QuestRules.RewardsEarned` | src/database.js:435-455 | Definition, no contract: the rewards of the quests an event completes, in list order. Specified by `QuestRules.SurvivorOrRewarded`. |
| `QuestRules.Left` | src/database.js:437-442 | An event leaves at most one entry of a quest in the active list. |
| `QuestRules.Reward` | src/database.js:441-442 | Each quest either stays active or pays its reward, never both. |
| `QuestRules.QuestIndex` | src/main.js:153 | `find` by id: when it finds nothing, no quest carries the id. Otherwise it gives the first position whose quest carries the id. |
| `QuestRules.WithoutId` | src/database.js:452 | The filter leaves no quest with the id and never lengthens the list. |
| `QuestRules.WithProgress` | src/database.js:438 | Writing progress keeps the list's length. |
| `QuestRules.SurvivorOrRewarded` | src/database.js:435-455 | Every active quest either survives the event or pays its reward once. |
| `QuestRules.NotCompletedStays` | src/database.js:436-440 | A quest the event does not complete stays active, advanced if matched and untouched otherwise. |
| `QuestRules.SurvivorsLack` | src/database.js:435-455 | An event introduces no new quest id. |
| `QuestRules.SurvivorsDistinct` | src/database.js:435-455 | Distinct active ids stay distinct. |
| `QuestRules.CompletedLeaves` | src/database.js:440-452 | A completed quest leaves the active list. |
| `QuestRules.SurvivorsShortOfTarget` | src/database.js:440-442 | Every matched quest that remains active is still short of its target. |
| `QuestRules.SurvivorsSplit` | src/database.js:436 | The walk over a list splits over any cut of the list, for both the survivors and the rewards. |
| `QuestRules.OneQuestEvent` | src/database.js:437-443 | A single quest is kept, advanced, or dropped with its reward. |
| `QuestRules.ThreeStepQuest` | src/database.js:435-455 | A 'completion' quest with target 3 completes on the third event and pays its reward once. A fourth event finds nothing to advance. |
| `QuestRules.DistinctAppend` | src/main.js:154-157 | Appending a quest whose id is absent keeps ids distinct. |
| `QuestRules.DistinctConcat` | src/database.js:452 | Two lists with distinct, disjoint ids concatenate to a list with distinct ids. |
| `QuestRules.WithoutIdDistinct` | src/database.js:452 | The filter keeps ids distinct. |
| `QuestRules.WithoutIdLacks` | src/database.js:452 | The filter adds no id. |
| `QuestRules.WithoutIdMembers` | src/main.js:164 | The filter keeps exactly the quests with another id. |
| `QuestRules.WithoutAbsentId` | src/database.js:452 | Filtering out an absent id changes nothing. |
| `QuestRules.WithoutIdSplit` | src/database.js:452 | The filter distributes over concatenation. |
| `QuestRules.RemoveMiddle` | src/database.js:452 | Filtering out the id of the only quest that carries it removes that quest and keeps the others in order. |
| `QuestRules.WithProgressMiddle` | src/database.js:438 | The advanced quest is the only active entry whose progress changes. |
| `QuestRules.WalkStep` | src/database.js:436-445 | During the walk, the visited quest's id is carried by no survivor so far and by no quest still to visit. |
| `QuestRules.WalkDistinct` | src/database.js:436-445 | During the walk, the survivors so far followed by the quests still to visit keep distinct ids. |
| `QuestRules.WithProgressDistinct` | src/database.js:438 | Writing progress keeps ids distinct. |
| `QuestRules.WalkAdvance` | src/database.js:436-445 | One more step of the walk adds what the event leaves of the visited quest to the survivors, and what it pays to the rewards. |
| `TaskRules.NewTask` | src/database.js:204-213 | The new task carries the given id and title and is not completed. Description, priority and estimate take the defaults '', medium and 60 when absent, and an estimate of 0 counts as absent. Both moments are now. |
| `TaskRules.Edited` | src/database.js:235-239 | Each of title, description, priority and estimate takes the edit's value when the edit carries it, 0 and the empty text included, and keeps the old one otherwise. The update moment is stamped. Id, completion state and creation moment stay. |
| `TaskRules.Toggled` | src/database.js:260-265 | The flag flips. Only a flip to completed records the completion moment, and a flip back keeps it. Nothing else changes except the update moment. |
| `TaskRules.ToggleTwice` | src/database.js:252-278 | Completing then uncompleting restores the flag but keeps the first completion moment. |
| `TaskRules.TaskIndex` | src/database.js:254 | Lookup by id: when it finds nothing, no task carries the id. Otherwise it gives the first position whose task carries the id. |
| `TaskRules.WithoutTask` | src/database.js:283 | Definition, no contract: the filter by id. Specified by `TaskRules.WithoutTaskEffect` and `TaskRules.WithoutTaskKeepsIds`. |
| `TaskRules.WithoutTaskEffect` | src/database.js:280-286 | Deletion leaves no task with the id and keeps exactly the others. The list gets shorter exactly when some task carried the id, and is unchanged otherwise. |
| `TaskRules.WithoutTaskLacks` | src/database.js:283 | Deletion adds no id. |
| `TaskRules.WithoutTaskKeepsIds` | src/database.js:283 | Deletion keeps ids distinct and below the counter. |
| `TaskRules.Insert` | src/database.js:197-201 | Insertion adds one task. |
| `TaskRules.InsertPermutes` | src/database.js:197-201 | Insertion adds exactly the task. |
| `TaskRules.InsertBounded` | src/database.js:197-201 | Insertion keeps an upper bound on creation moments. |
| `TaskRules.InsertSorted` | src/database.js:197-201 | Insertion keeps a newest-first list newest first. |
| `TaskRules.SortedNewestFirst` | src/database.js:197-201 | The listing is a permutation of the tasks, newest first. |
| `TaskRules.SortStep` | src/database.js:197-201 | Inserting the first task into the sorted rest gives a newest-first permutation of the whole list. |
| `TaskRules.InsertStable` | src/database.js:197-201 | Insertion keeps the order of tasks created at the same moment. |
| `TaskRules.SortIsStable` | src/database.js:197-201 | The sort is stable: tasks created at the same moment keep their relative order. |
| `TaskRules.CountCompleted` | src/database.js:459 | Never more completed tasks than tasks. |
| `TaskRules.CompletedCount` | src/database.js:459 | The count is the number of positions holding a completed task. |
| `TaskRules.NoneCompleted` | src/database.js:459 | The completed count is 0 exactly when no task is completed. |
| `TaskRules.CountHighPending` | src/database.js:461-463 | Never more pending high-priority tasks than pending tasks. |
| `TaskRules.HighPendingCount` | src/database.js:461-463 | The count is the number of positions holding a high-priority task that is not completed. |
| `Store.AfterCompletion` | src/database.js:264-270 | Definition, no contract: the profile after a completion, in the order points, badges, quests, streak. Specified by `Store.CompletionEffect`. |
| `Store.SampleDataPoints` | src/database.js:147-151 | A new player's sample data earns 20 points and one completed task, and leaves the level at 1 with no badge and no streak. |
| `Store.CompletionEffect` | src/database.js:264-270 | A completion counts one more completed task. It adds the completion's points plus the rewards of the quests it completes, and never lowers the level. |
| `Store.TaskQuestDatabase.constructor` | src/database.js:19-57 | The store starts with no tasks and no quests, the new player's profile, the default configuration, and both counters at 1. |
| `Store.TaskQuestDatabase.InsertSampleData` | src/database.js:121-152 | The task list becomes the two sample tasks and the task counter 3, the completed sample's completion points are awarded, and nothing else changes. |
| `Store.TaskQuestDatabase.InitializeQuests` | src/database.js:154-194 | Installs the three default quests with the first one active and sets the quest counter to 4. |
| `Store.TaskQuestDatabase.GetAllTasks` | src/database.js:197-201 | A permutation of the tasks, newest first. |
| `Store.TaskQuestDatabase.GetStats` | src/database.js:457-466 | Total is the task count. Completed is the number of completed tasks and high priority the number of pending high-priority tasks, the lengths of the two `filter`s. Completed plus pending is the total, pending high-priority tasks are at most the pending ones, and completed is 0 exactly when no task is completed. |
| `Store.TaskQuestDatabase.CreateTask` | src/database.js:203-226 | The new task takes the old counter as its id, which no task carried, and the counter rises by one. The task is appended with its defaults. The profile takes the creation points, then the rewards of the quests the 'create_tasks' event completes, 'completion' quests included. Active quests become the event's survivors. Nothing else changes. |
| `Store.TaskQuestDatabase.UpdateTask` | src/database.js:228-250 | A missing id is an error that changes nothing. Otherwise the first task with the id is edited in place and the modification points are awarded. |
| `Store.TaskQuestDatabase.ToggleTaskComplete` | src/database.js:252-278 | A missing id is an error that changes nothing. Otherwise the flag of the first task with the id flips. Only a flip to completed awards the completion points, checks the badges at the completion hour, advances the quests (paying for those completed) and updates the streak, in that order. A flip back changes neither the profile nor the quests. |
| `Store.TaskQuestDatabase.DeleteTask` | src/database.js:280-296 | Removes every task with the id and reports a removal exactly when one carried it. Otherwise nothing changes. |
| `Store.TaskQuestDatabase.CalculatePoints` | src/database.js:299-327 | Bumps the action's counter and adds the action's floored points. |
| `Store.TaskQuestDatabase.AddPoints` | src/database.js:329-338 | Raises both totals, then checks the level and grows the skills. |
| `Store.TaskQuestDatabase.CheckLevelUp` | src/database.js:340-356 | The loop with its early exit leaves the level at the larger of the old level and the scanned level. |
| `Store.TaskQuestDatabase.AddSkillPoints` | src/database.js:358-375 | The loop over the skills leaves them grown by a third of the points, floored, with nothing else in the profile changed. |
| `Store.TaskQuestDatabase.CheckTimeBasedBadges` | src/database.js:377-395 | A task without a completion moment changes nothing. Otherwise it runs the badge check at the completion hour. |
| `Store.TaskQuestDatabase.UpdateStreak` | src/database.js:397-428 | Runs the streak update against the tasks for today. |
| `Store.TaskQuestDatabase.UpdateQuestProgress` | src/database.js:435-445 | The walk over the active list as it was on entry leaves the survivors of the event as the active quests. The profile has received the rewards of the completed quests, in list order, once each. |
| `Store.TaskQuestDatabase.AdvanceQuest` | src/database.js:436-444 | One visit, to a quest whose id no other active entry carries, either advances that entry in place or completes the quest. |
| `Store.TaskQuestDatabase.CompleteQuest` | src/database.js:447-455 | Pays the reward and filters the quest's id out of the active list. |
| `Store.TaskQuestDatabase.UpdateConfig` | src/database.js:481-484 | The configuration becomes the shallow merge. |
| `Handlers.EntryOr` | src/main.js:88-89 | Definition, no contract: `t[i] || fallback`, the entry unless it is missing or 0. |
| `Handlers.GetLevel` | src/main.js:85-99 | The report carries the level and the total. The current threshold is the table's entry at level − 1 when that entry exists and is not 0, and 0 otherwise. The next threshold is the entry at the level when it exists and is not 0, and otherwise the last entry. There is a next threshold exactly when the table is not empty. Progress is the total minus the current threshold, and the points needed are the next threshold minus the total. |
| `Handlers.LevelSpan` | src/main.js:89-97 | Progress plus points needed is the next threshold minus the current one. |
| `Handlers.LevelBounds` | src/main.js:88-97 | Below the top level, for a player whose level is the scanned one, progress is not negative and some points are still needed. |
| `Handlers.DefaultLevelReport` | src/main.js:85-99 | With the default thresholds, level 2 at 250 points reports 100, 300, 150 made and 50 needed. |
| `Handlers.TopLevelReport` | src/main.js:88-89 | At level 10 the next threshold falls back to the last one, 5500. |
| `Handlers.GetBadges` | src/main.js:101-121 | Both badges are listed, each marked earned exactly when the profile holds it. |
| `Handlers.NoBadgesAtStart` | src/main.js:101-121 | A new player has earned no badge. |
| `Handlers.CreateQuest` | src/main.js:137-150 | The new quest takes the old counter as its id, which no catalog quest carried, and the counter rises by one. The quest is inactive at progress 0 and appended to the catalog. Nothing else changes. |
| `Handlers.ActivateQuest` | src/main.js:152-161 | A catalog quest that no active quest shares an id with is marked active with progress 0 and appended once. A missing or already-active quest changes nothing and so keeps its progress. The answer is the catalog entry, if any. |
| `Handlers.KeepIds` | src/main.js:155-156 | Changing a quest's flags in the catalog keeps the ids. |
| `Handlers.DeactivateQuest` | src/main.js:163-171 | No active quest with the id remains, the rest stay in order, and the first catalog quest with the id is marked inactive. Always answers true. |
| `Handlers.DeactivationEffect` | src/main.js:164 | Deactivation drops exactly the quests with the id. |
| `Handlers.ResetConfig` | src/main.js:183-198 | Every known tunable is back at its default, extra keys survive, and the defaults are the answer. |
| `Handlers.ResetConfigIdempotent` | src/main.js:183-198 | Resetting twice is resetting once, and the threshold table is the default one. |
| `Handlers.ResetProfile` | src/main.js:202-228 | The profile becomes the new player's profile, the same one the constructor installs. |
| `Handlers.AdminAddPoints` | src/main.js:230-234 | Grants points exactly as an action's points are granted. |
| `Handlers.AddBadge` | src/main.js:236-243 | A badge not held is appended, and a badge already held leaves the profile unchanged. The answer is the badge list. |
| `Handlers.GrantedOnce` | src/main.js:236-243 | After the grant, the badge appears exactly once and the list has no duplicates. |

## Left out

- Reading and writing the data file is not modelled. This covers choosing its path, parsing it, the corrupt-file fallback, and `saveData` and `close`. Every save is a no-op here, so an error thrown by a failed write is not modelled either.
- `initialize` is not modelled as one operation. It reads the document file and merges what it loads over the constructor's document; the file and the merge with loaded data are left out, and so is its error path (see the notes below). Its first-run steps are modelled separately: `insertSampleData` as `Store.TaskQuestDatabase.InsertSampleData` and `initializeQuests` as `Store.TaskQuestDatabase.InitializeQuests`. Its start-up streak update is `Store.TaskQuestDatabase.UpdateStreak` with the start-up day. Its start-up `updateQuests` call does nothing.
- The empty `updateQuests` is left out because it does nothing.
- Quest `createdAt` and `cooldownHours`, and the configuration's `questCooldown`, are stored but never read. `questCooldown` is kept in the configuration record; the other two are not modelled.
- Console output is left out.
- Local time is modelled as milliseconds read through a day and an hour. Daylight-saving shifts and time zones are not modelled.
- Store.TaskQuestDatabase.UpdateStreak: it takes the day as a parameter instead of reading the clock. "Yesterday" is the previous day number.
- Multipliers are exact reals. JavaScript double rounding before the floor is not modelled.
- Inputs that are not numbers (NaN, strings for points), priorities outside low, medium and high, and extra fields in a task edit or a new quest are not modelled. In particular, an `id` supplied in a new quest's data, which the spread would let override the counter, is not modelled.
- Active quests are values separate from the catalog. Within one session the source's activated quest is the same object in both lists, so progress made on it also shows in the catalog; the model does not capture that sharing. After a reload from the file the two are copies, as modelled. Inside `updateQuestProgress`, the sharing between the array being walked and the filtered copy is modelled by writing the new progress to the active entry with the same id.
- The simple getters are not modelled: `getProfile`, `getActiveQuests`, `getConfig` and the other one-line handlers.
- Export, the data-path request, window creation, the renderer, the preload bridge and the build script are not modelled.

## Notes on the code

- The level check gives the larger of the old level and the count of leading reached thresholds, with a minimum of 1; it is not one more than that count. With the default table, 250 points is level 2 and 300 is level 3.
- The thresholds are never required to be increasing. The scan stops at the first missed threshold, whatever follows it.
- `Store.TaskQuestDatabase.AdvanceQuest` is the body of the `forEach` in `updateQuestProgress`, written as a method of its own.
- On an error, `initialize` does not fall back to the defaults. It installs an empty profile and an empty configuration (src/database.js:94-99) and then inserts the sample data. Counting the sample completion raises `profile.stats.tasksCompleted` (src/database.js:310) with `stats` missing, so the error path itself throws and `initialize` fails. This follows from the code as written; the model has no such path.
- Uncompleting a task keeps its old completion moment. A stale `isActive` flag stays on a catalog quest after its active copy completes.
