/**
 * The value-typed data shapes of the goal tracker: goal status and frequency, ledger
 * entries, achievement templates and log records, the progress report a goal derives,
 * and GoalView, the snapshot of a goal's public properties that conditions read.
 */
module Records {
  import opened Calendar

  datatype GoalStatus = InProgress | Complete | Cancelled

  datatype Frequency = Daily | Weekly | Monthly

  /** One ledger entry (ProgressEntry.cs). The goal and entry IDs are set by the store. */
  datatype ProgressEntry = ProgressEntry(
    goalId: int,
    entryId: int,
    dateLogged: DateTime,
    valueLogged: real,
    notes: string)

  /** The properties only one goal variant has, with its derived value. */
  datatype Details =
    | Quantitative(targetValue: real, currentValue: real, unitOfMeasure: string)
    | TimeBased(requiredFrequency: Frequency, currentStreak: nat)

  /** Every public property of a goal object, as a value. */
  datatype GoalView = GoalView(
    goalId: int,
    title: string,
    description: string,
    startDate: DateTime,
    endDate: DateTime,
    status: GoalStatus,
    progressEntries: seq<ProgressEntry>,
    details: Details)

  /** An achievement definition (AchievementTemplateModel.cs); the ID is assigned by the store. */
  datatype Template = Template(
    achievementId: int,
    name: string,
    description: string,
    unlockCondition: string,
    isRepeatable: bool)

  /** One earned achievement (AcievementLogModel.cs). */
  datatype AchievementLog = AchievementLog(goalId: int, achievementId: int, dateEarned: DateTime)

  /**
   * What CalculateProgress reports. The numbers are kept as numbers: the text renders
   * them with the "N1" format, "{percentage}% Complete ({current} of {target} {unit})"
   * and "{streak} {unit} Streak! (Required Frequency: {frequency})".
   */
  datatype ProgressReport =
    | TargetInvalid
    | PercentComplete(percentage: real, currentValue: real, targetValue: real, unitOfMeasure: string)
    | StreakCount(streak: nat, unit: string, requiredFrequency: Frequency)
}
