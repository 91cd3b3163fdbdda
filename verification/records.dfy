/**
 * The records that the task store keeps in its single document: tasks, the
 * player profile, quests and the tunable configuration, together with the
 * default values the store starts from.
 */
module Records {

  datatype Option<T> = None | Some(value: T)

  /** The only error the task operations raise: no task carries the given id. */
  datatype Error = TaskNotFound

  datatype Result<T> = Ok(value: T) | Err(error: Error)

  /**
   * A moment as the store sees it: milliseconds of local wall-clock time.
   * The calendar day and the hour of the day are read from it the way
   * `toDateString` and `getHours` read a local date.
   */
  type Timestamp = int

  const MsPerHour: int := 3_600_000
  const MsPerDay: int := 86_400_000

  /** The local calendar day a moment falls on, as a day number. */
  function Day(t: Timestamp): (d: int)
    ensures d * MsPerDay <= t < d * MsPerDay + MsPerDay
  {
    t / MsPerDay
  }

  /** The local hour of a moment. */
  function Hour(t: Timestamp): (h: int)
    ensures 0 <= h < 24
  {
    (t % MsPerDay) / MsPerHour
  }

  datatype Priority = Low | Medium | High

  datatype Task = Task(
    id: int,
    title: string,
    description: string,
    priority: Priority,
    estimatedTime: int,        // minutes
    completed: bool,
    completedAt: Option<Timestamp>,
    createdAt: Timestamp,
    updatedAt: Timestamp)

  /** What a caller hands to task creation; absent fields take defaults. */
  datatype TaskInput = TaskInput(
    title: string,
    description: Option<string>,
    priority: Option<Priority>,
    estimatedTime: Option<int>)

  /** The fields a task edit may carry; a present field overwrites the task's. */
  datatype TaskUpdate = TaskUpdate(
    title: Option<string>,
    description: Option<string>,
    priority: Option<Priority>,
    estimatedTime: Option<int>)

  datatype Skill = Skill(name: string, level: int, points: int)

  datatype Stats = Stats(
    tasksCreated: int,
    tasksCompleted: int,
    tasksModified: int,
    totalTimeSpent: int,
    earlyBirdTasks: int,
    nightOwlTasks: int)

  datatype Profile = Profile(
    totalPoints: int,
    level: int,
    currentLevelPoints: int,
    streak: int,
    lastActiveDate: Option<int>,  // a day number
    badges: seq<string>,
    skills: seq<Skill>,           // in the order of the profile's skill keys
    stats: Stats)

  /** A quest; `kind` is the tag that task events are matched against. */
  datatype Quest = Quest(
    id: int,
    title: string,
    description: string,
    kind: string,
    target: int,
    reward: int,
    isActive: bool,
    progress: int)

  /** What a caller hands to quest creation. */
  datatype QuestInput = QuestInput(
    title: string,
    description: string,
    kind: string,
    target: int,
    reward: int)

  /**
   * The tunables. `others` holds any key outside the known ones, with its
   * value kept as opaque text: nothing reads those keys, merging keeps them.
   */
  datatype Config = Config(
    questCooldown: int,
    pointsPerCreate: int,
    pointsPerComplete: int,
    pointsPerModify: int,
    highPriorityMultiplier: real,
    longTaskMultiplier: real,
    longTaskThreshold: int,
    levelThresholds: seq<int>,
    skillPointsRequired: int,
    others: map<string, string>)

  /** A partial configuration: a present field replaces the current one. */
  datatype ConfigPatch = ConfigPatch(
    questCooldown: Option<int>,
    pointsPerCreate: Option<int>,
    pointsPerComplete: Option<int>,
    pointsPerModify: Option<int>,
    highPriorityMultiplier: Option<real>,
    longTaskMultiplier: Option<real>,
    longTaskThreshold: Option<int>,
    levelThresholds: Option<seq<int>>,
    skillPointsRequired: Option<int>,
    others: map<string, string>)

  /** The task counts the store reports. */
  datatype TaskStats = TaskStats(total: int, completed: int, pending: int, highPriority: int)

  const EarlyBird: string := "early_bird"
  const NightOwl: string := "night_owl"
  const SkillNames: seq<string> := ["efficiency", "concentration", "creativity"]

  const DefaultThresholds: seq<int> := [0, 100, 300, 600, 1000, 1500, 2200, 3000, 4000, 5500]

  /** The profile of a new player. */
  function DefaultProfile(): Profile
  {
    Profile(
      0, 1, 0, 0, None, [],
      [Skill("efficiency", 0, 0), Skill("concentration", 0, 0), Skill("creativity", 0, 0)],
      Stats(0, 0, 0, 0, 0, 0))
  }

  /** The configuration a new store starts with. */
  function DefaultConfig(): Config
  {
    Config(24, 10, 20, 5, 2.0, 1.5, 120, DefaultThresholds, 50, map[])
  }

  /** The quest catalog written on first run. */
  function DefaultQuests(): seq<Quest>
  {
    [ Quest(1, "Premier pas", "Créer votre première tâche", "create_tasks", 1, 50, true, 0),
      Quest(2, "Productivité matinale", "Terminer 3 tâches avant 12h", "morning_tasks", 3, 100, false, 0),
      Quest(3, "Maître de l'efficacité", "Terminer 5 tâches en une journée", "daily_completion", 5, 150, false, 0) ]
  }

  /** The two sample tasks a first run starts with, stamped `now`: the first already completed. */
  function SampleTasks(now: Timestamp): seq<Task>
  {
    [ Task(1, "Découvrir TaskQuest", "Apprendre à utiliser cette application gamifiée",
           Medium, 30, true, Some(now), now, now),
      Task(2, "Créer ma première vraie tâche", "Utiliser l'interface pour ajouter une tâche personnelle",
           High, 15, false, None, now, now) ]
  }

  /** A patch field: its value when present, the current one otherwise. */
  function Pick<T>(patch: Option<T>, current: T): (r: T)
    ensures patch.Some? ==> r == patch.value
    ensures patch.None? ==> r == current
  {
    if patch.Some? then patch.value else current
  }

  /** The shallow merge `{ ...config, ...patch }`. */
  function Merge(c: Config, p: ConfigPatch): (r: Config)
    ensures p.questCooldown.Some? ==> r.questCooldown == p.questCooldown.value
    ensures p.questCooldown.None? ==> r.questCooldown == c.questCooldown
    ensures p.pointsPerCreate.Some? ==> r.pointsPerCreate == p.pointsPerCreate.value
    ensures p.pointsPerCreate.None? ==> r.pointsPerCreate == c.pointsPerCreate
    ensures p.pointsPerComplete.Some? ==> r.pointsPerComplete == p.pointsPerComplete.value
    ensures p.pointsPerComplete.None? ==> r.pointsPerComplete == c.pointsPerComplete
    ensures p.pointsPerModify.Some? ==> r.pointsPerModify == p.pointsPerModify.value
    ensures p.pointsPerModify.None? ==> r.pointsPerModify == c.pointsPerModify
    ensures p.highPriorityMultiplier.Some? ==> r.highPriorityMultiplier == p.highPriorityMultiplier.value
    ensures p.highPriorityMultiplier.None? ==> r.highPriorityMultiplier == c.highPriorityMultiplier
    ensures p.longTaskMultiplier.Some? ==> r.longTaskMultiplier == p.longTaskMultiplier.value
    ensures p.longTaskMultiplier.None? ==> r.longTaskMultiplier == c.longTaskMultiplier
    ensures p.longTaskThreshold.Some? ==> r.longTaskThreshold == p.longTaskThreshold.value
    ensures p.longTaskThreshold.None? ==> r.longTaskThreshold == c.longTaskThreshold
    ensures p.levelThresholds.Some? ==> r.levelThresholds == p.levelThresholds.value
    ensures p.levelThresholds.None? ==> r.levelThresholds == c.levelThresholds
    ensures p.skillPointsRequired.Some? ==> r.skillPointsRequired == p.skillPointsRequired.value
    ensures p.skillPointsRequired.None? ==> r.skillPointsRequired == c.skillPointsRequired
    ensures r.others.Keys == c.others.Keys + p.others.Keys
    ensures forall k :: k in p.others ==> r.others[k] == p.others[k]
    ensures forall k :: k in c.others && k !in p.others ==> r.others[k] == c.others[k]
  {
    Config(
      Pick(p.questCooldown, c.questCooldown),
      Pick(p.pointsPerCreate, c.pointsPerCreate),
      Pick(p.pointsPerComplete, c.pointsPerComplete),
      Pick(p.pointsPerModify, c.pointsPerModify),
      Pick(p.highPriorityMultiplier, c.highPriorityMultiplier),
      Pick(p.longTaskMultiplier, c.longTaskMultiplier),
      Pick(p.longTaskThreshold, c.longTaskThreshold),
      Pick(p.levelThresholds, c.levelThresholds),
      Pick(p.skillPointsRequired, c.skillPointsRequired),
      c.others + p.others)
  }

  /** No value occurs twice. */
  predicate NoDuplicates(s: seq<string>)
  {
    forall i, j :: 0 <= i < j < |s| ==> s[i] != s[j]
  }
}
