/**
 * The request handlers of the main process that do more than forward to the
 * store: the level report, the badge board, quest creation, activation and
 * deactivation, and the administrative resets and grants. The handlers that
 * write the store's document directly do so here on the store object.
 */
module Handlers {
  import opened Records
  import opened Progression
  import QuestRules
  import Store

  // ---------------------------------------------------------------------
  // Level report

  /** The level report. A threshold absent from the table or equal to 0 falls back (the current
      one to 0, the next one to the last threshold); with no thresholds there is no next one
      and no point count to it. */
  datatype LevelInfo = LevelInfo(
    level: int,
    currentPoints: int,
    currentThreshold: int,
    nextThreshold: Option<int>,
    progressToNext: int,
    pointsNeeded: Option<int>)

  /** `t[i] || fallback`: the entry at `i` unless it is missing or 0. */
  function EntryOr(t: seq<int>, i: int, fallback: int): int
  {
    if 0 <= i < |t| && t[i] != 0 then t[i] else fallback
  }

  /** The report the level request answers with, from the profile and the thresholds. */
  function GetLevel(p: Profile, thresholds: seq<int>): (info: LevelInfo)
    ensures info.level == p.level && info.currentPoints == p.totalPoints
    ensures info.progressToNext == p.totalPoints - info.currentThreshold
    ensures 1 <= p.level <= |thresholds| && thresholds[p.level - 1] != 0 ==>
      info.currentThreshold == thresholds[p.level - 1]
    ensures !(1 <= p.level <= |thresholds| && thresholds[p.level - 1] != 0) ==> info.currentThreshold == 0
    ensures 0 <= p.level < |thresholds| && thresholds[p.level] != 0 ==>
      info.nextThreshold == Some(thresholds[p.level])
    ensures |thresholds| > 0 && !(0 <= p.level < |thresholds| && thresholds[p.level] != 0) ==>
      info.nextThreshold == Some(thresholds[|thresholds| - 1])
    ensures info.nextThreshold.Some? <==> |thresholds| > 0
    ensures info.pointsNeeded.Some? <==> info.nextThreshold.Some?
    ensures info.pointsNeeded.Some? ==> info.pointsNeeded.value == info.nextThreshold.value - p.totalPoints
  {
    var current := EntryOr(thresholds, p.level - 1, 0);
    var next: Option<int> :=
      if |thresholds| == 0 then None
      else Some(EntryOr(thresholds, p.level, thresholds[|thresholds| - 1]));
    LevelInfo(
      p.level, p.totalPoints, current, next,
      p.totalPoints - current,
      if next.Some? then Some(next.value - p.totalPoints) else None)
  }

  /** The progress made and the points still needed add up to the width of the level's band. */
  lemma LevelSpan(p: Profile, thresholds: seq<int>)
    requires |thresholds| > 0
    ensures var info := GetLevel(p, thresholds);
      info.progressToNext + info.pointsNeeded.value == info.nextThreshold.value - info.currentThreshold
  {
  }

  /** For a player whose level is the one the thresholds give for their total, below the last
      level: the progress is not negative and some points are still needed. */
  lemma LevelBounds(p: Profile, thresholds: seq<int>)
    requires p.totalPoints >= 0
    requires 1 <= p.level == LeadingCount(thresholds, p.totalPoints) < |thresholds|
    ensures var info := GetLevel(p, thresholds);
      info.progressToNext >= 0 && info.pointsNeeded.value > 0
  {
  }

  /** With the default thresholds, a player at level 2 with 250 points has made 150 of the 200
      points between 100 and 300. */
  lemma DefaultLevelReport(p: Profile)
    requires p.level == 2 && p.totalPoints == 250
    ensures GetLevel(p, DefaultThresholds) ==
      LevelInfo(2, 250, 100, Some(300), 150, Some(50))
  {
  }

  /** At the top level the next threshold falls back to the last one. */
  lemma TopLevelReport(p: Profile)
    requires p.level == 10
    ensures GetLevel(p, DefaultThresholds).nextThreshold == Some(5500)
    ensures GetLevel(p, DefaultThresholds).currentThreshold == 5500
  {
  }

  // ---------------------------------------------------------------------
  // Badge board

  datatype BadgeInfo = BadgeInfo(id: string, name: string, earned: bool)

  /** Both time-of-day badges, each marked earned exactly when the profile holds it. */
  function GetBadges(p: Profile): (board: seq<BadgeInfo>)
    ensures |board| == 2
    ensures board[0].id == EarlyBird && board[1].id == NightOwl
    ensures forall k :: 0 <= k < |board| ==> (board[k].earned <==> board[k].id in p.badges)
  {
    [ BadgeInfo(EarlyBird, "Early Bird", EarlyBird in p.badges),
      BadgeInfo(NightOwl, "Night Owl", NightOwl in p.badges) ]
  }

  /** A new player has earned no badge. */
  lemma NoBadgesAtStart()
    ensures forall k :: 0 <= k < 2 ==> !GetBadges(DefaultProfile())[k].earned
  {
  }

  // ---------------------------------------------------------------------
  // Quests

  /** Adds a quest to the catalog under the next quest id, inactive and without progress. */
  method CreateQuest(db: Store.TaskQuestDatabase, input: QuestInput) returns (q: Quest)
    requires db.Valid()
    modifies db
    ensures db.Valid()
    ensures q == Quest(old(db.nextQuestId), input.title, input.description, input.kind, input.target, input.reward, false, 0)
    ensures QuestRules.Lacks(old(db.quests), q.id)
    ensures db.nextQuestId == old(db.nextQuestId) + 1
    ensures db.quests == old(db.quests) + [q]
    ensures db.activeQuests == old(db.activeQuests) && db.tasks == old(db.tasks) && db.profile == old(db.profile)
    ensures db.config == old(db.config) && db.nextTaskId == old(db.nextTaskId)
  {
    q := Quest(db.nextQuestId, input.title, input.description, input.kind, input.target, input.reward, false, 0);
    db.nextQuestId := db.nextQuestId + 1;
    QuestRules.DistinctAppend(db.quests, q);
    db.quests := db.quests + [q];
  }

  /** Activates the first catalog quest with the id, unless an active quest already carries it:
      the catalog entry is marked active with its progress reset, and joins the active list.
      Answers the catalog entry, if there is one. */
  method ActivateQuest(db: Store.TaskQuestDatabase, questId: int) returns (r: Option<Quest>)
    requires db.Valid()
    modifies db
    ensures db.Valid()
    ensures QuestRules.QuestIndex(old(db.quests), questId).None? ==>
      r == None && db.quests == old(db.quests) && db.activeQuests == old(db.activeQuests)
    ensures QuestRules.QuestIndex(old(db.quests), questId).Some? ==>
      var k := QuestRules.QuestIndex(old(db.quests), questId).value;
      if QuestRules.Lacks(old(db.activeQuests), questId) then
        var q := old(db.quests)[k].(isActive := true, progress := 0);
        && r == Some(q)
        && db.quests == old(db.quests)[k := q]
        && db.activeQuests == old(db.activeQuests) + [q]
      else
        && r == Some(old(db.quests)[k])
        && db.quests == old(db.quests) && db.activeQuests == old(db.activeQuests)
    ensures db.tasks == old(db.tasks) && db.profile == old(db.profile) && db.config == old(db.config)
    ensures db.nextTaskId == old(db.nextTaskId) && db.nextQuestId == old(db.nextQuestId)
  {
    var index := QuestRules.QuestIndex(db.quests, questId);
    if index.None? {
      return None;
    }
    var k := index.value;
    if QuestRules.QuestIndex(db.activeQuests, questId).None? {
      var q := db.quests[k].(isActive := true, progress := 0);
      KeepIds(db.quests, k, q);
      db.quests := db.quests[k := q];
      QuestRules.DistinctAppend(db.activeQuests, q);
      db.activeQuests := db.activeQuests + [q];
      r := Some(q);
    } else {
      r := Some(db.quests[k]);
    }
  }

  /** Replacing a quest by one with the same id keeps the ids distinct and below their bound. */
  lemma KeepIds(qs: seq<Quest>, k: int, q: Quest)
    requires 0 <= k < |qs| && q.id == qs[k].id
    ensures QuestRules.DistinctIds(qs) ==> QuestRules.DistinctIds(qs[k := q])
    ensures forall bound :: QuestRules.IdsBelow(qs, bound) ==> QuestRules.IdsBelow(qs[k := q], bound)
  {
    var r := qs[k := q];
    assert forall j :: 0 <= j < |r| ==> r[j].id == qs[j].id;
  }

  /** Drops every active quest with the id and marks the first catalog quest with it inactive;
      always answers true. */
  method DeactivateQuest(db: Store.TaskQuestDatabase, questId: int) returns (r: bool)
    requires db.Valid()
    modifies db
    ensures db.Valid()
    ensures r
    ensures db.activeQuests == QuestRules.WithoutId(old(db.activeQuests), questId)
    ensures QuestRules.QuestIndex(old(db.quests), questId).None? ==> db.quests == old(db.quests)
    ensures QuestRules.QuestIndex(old(db.quests), questId).Some? ==>
      var k := QuestRules.QuestIndex(old(db.quests), questId).value;
      db.quests == old(db.quests)[k := old(db.quests)[k].(isActive := false)]
    ensures db.tasks == old(db.tasks) && db.profile == old(db.profile) && db.config == old(db.config)
    ensures db.nextTaskId == old(db.nextTaskId) && db.nextQuestId == old(db.nextQuestId)
  {
    QuestRules.WithoutIdDistinct(db.activeQuests, questId);
    db.activeQuests := QuestRules.WithoutId(db.activeQuests, questId);
    var index := QuestRules.QuestIndex(db.quests, questId);
    if index.Some? {
      var k := index.value;
      var q := db.quests[k].(isActive := false);
      KeepIds(db.quests, k, q);
      db.quests := db.quests[k := q];
    }
    r := true;
  }

  /** After a deactivation no active quest carries the id, and every other active quest stays. */
  lemma DeactivationEffect(active: seq<Quest>, questId: int, q: Quest)
    ensures QuestRules.Lacks(QuestRules.WithoutId(active, questId), questId)
    ensures q in QuestRules.WithoutId(active, questId) <==> q in active && q.id != questId
  {
    QuestRules.WithoutIdMembers(active, questId, q);
  }

  // ---------------------------------------------------------------------
  // Administration

  /** The configuration the reset writes: every known tunable at its default value. */
  function ResetPatch(): ConfigPatch
  {
    ConfigPatch(
      Some(24), Some(10), Some(20), Some(5), Some(2.0), Some(1.5), Some(120),
      Some([0, 100, 300, 600, 1000, 1500, 2200, 3000, 4000, 5500]), Some(50),
      map[])
  }

  /** Merges the default tunables over the configuration and answers them: every known tunable
      is back at its default, while keys outside the known ones survive. */
  method ResetConfig(db: Store.TaskQuestDatabase) returns (r: Config)
    requires db.Valid()
    modifies db
    ensures db.Valid()
    ensures r == DefaultConfig()
    ensures db.config == DefaultConfig().(others := old(db.config).others)
    ensures db.tasks == old(db.tasks) && db.profile == old(db.profile) && db.quests == old(db.quests)
    ensures db.activeQuests == old(db.activeQuests)
    ensures db.nextTaskId == old(db.nextTaskId) && db.nextQuestId == old(db.nextQuestId)
  {
    db.UpdateConfig(ResetPatch());
    r := DefaultConfig();
  }

  /** Resetting the configuration twice is resetting it once. */
  lemma ResetConfigIdempotent(c: Config)
    ensures Merge(Merge(c, ResetPatch()), ResetPatch()) == Merge(c, ResetPatch())
    ensures Merge(c, ResetPatch()).levelThresholds == DefaultThresholds
  {
  }

  /** Replaces the profile by the one of a new player and answers it. */
  method ResetProfile(db: Store.TaskQuestDatabase) returns (p: Profile)
    requires db.Valid()
    modifies db
    ensures db.Valid()
    ensures p == db.profile == DefaultProfile()
    ensures db.tasks == old(db.tasks) && db.quests == old(db.quests) && db.activeQuests == old(db.activeQuests)
    ensures db.config == old(db.config) && db.nextTaskId == old(db.nextTaskId) && db.nextQuestId == old(db.nextQuestId)
  {
    db.profile := Profile(
      0, 1, 0, 0, None, [],
      [Skill("efficiency", 0, 0), Skill("concentration", 0, 0), Skill("creativity", 0, 0)],
      Stats(0, 0, 0, 0, 0, 0));
    DefaultProfileOk();
    p := db.profile;
  }

  /** Grants points as any action does, and answers the profile. */
  method AdminAddPoints(db: Store.TaskQuestDatabase, points: int) returns (p: Profile)
    requires db.Valid()
    modifies db
    ensures db.Valid()
    ensures p == db.profile == AfterPoints(old(db.profile), db.config, points)
    ensures db.tasks == old(db.tasks) && db.quests == old(db.quests) && db.activeQuests == old(db.activeQuests)
    ensures db.config == old(db.config) && db.nextTaskId == old(db.nextTaskId) && db.nextQuestId == old(db.nextQuestId)
  {
    db.AddPoints(points);
    p := db.profile;
  }

  /** Adds the badge unless the profile holds it already, and answers the badges. */
  method AddBadge(db: Store.TaskQuestDatabase, badgeId: string) returns (badges: seq<string>)
    requires db.Valid()
    modifies db
    ensures db.Valid()
    ensures badges == db.profile.badges
    ensures badgeId in old(db.profile.badges) ==> db.profile == old(db.profile)
    ensures badgeId !in old(db.profile.badges) ==>
      db.profile == old(db.profile).(badges := old(db.profile.badges) + [badgeId])
    ensures db.tasks == old(db.tasks) && db.quests == old(db.quests) && db.activeQuests == old(db.activeQuests)
    ensures db.config == old(db.config) && db.nextTaskId == old(db.nextTaskId) && db.nextQuestId == old(db.nextQuestId)
  {
    if badgeId !in db.profile.badges {
      AppendKeepsNoDuplicates(db.profile.badges, badgeId);
      db.profile := db.profile.(badges := db.profile.badges + [badgeId]);
    }
    badges := db.profile.badges;
  }

  /** Whatever it held before, a profile whose badges have no duplicates holds the granted badge
      exactly once afterwards. */
  lemma {:induction false} GrantedOnce(badges: seq<string>, badgeId: string)
    requires NoDuplicates(badges)
    ensures var after := if badgeId in badges then badges else badges + [badgeId];
      NoDuplicates(after) && badgeId in after
      && |set k | 0 <= k < |after| && after[k] == badgeId| == 1
  {
    var after := if badgeId in badges then badges else badges + [badgeId];
    if badgeId !in badges {
      AppendKeepsNoDuplicates(badges, badgeId);
    }
    var i :| 0 <= i < |after| && after[i] == badgeId;
    assert (set k | 0 <= k < |after| && after[k] == badgeId) == {i};
  }
}
