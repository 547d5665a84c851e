# Quest-Log goals and achievements, modelled in Dafny

Quest-Log is a console goal tracker. A goal is either quantitative (a target value that
ledger entries add up to) or time-based (a streak of consecutive days, weeks or months).
Each goal keeps a ledger of progress entries and rederives its progress from that ledger
on demand. An achievement engine watches the goals. It evaluates small textual unlock
conditions such as `CurrentStreak >= 3` against a goal. It then records in an achievement
log every (goal, achievement) pair the goal earns, and caches the earned pairs in memory.

This project models the core of that program and proves properties of the model:

- the progress derivation of the two goal variants, as state-changing methods of a
  `Goal` class (`Goals.dfy`);
- the streak computation (`Streaks.dfy`) and the sum of a quantitative ledger
  (`Quantities.dfy`);
- the condition evaluator, as a total function (`Conditions.dfy`), with the string
  splitting and number parsing it relies on (`Text.dfy`);
- the achievement engine, as a class holding its two caches and the parts of the store
  it reads and writes (`Achievements.dfy`);
- the supporting pieces: dates (`Calendar.dfy`), data shapes (`Records.dfy`) and
  option/result types (`Outcomes.dfy`).

The clock is a parameter throughout. `now` stands for `DateTime.Now`, and its date at
midnight stands for `DateTime.Today`. The store is modelled in two ways:

- as fields of the engine: the stored templates, the achievement log and the next ID;
- as parameters: the completed-goal count, and `accepts`, which says whether a write of a
  log record succeeds.

Notes on behaviour of the code that a reader might not expect, which the model follows:

- The streak is not anchored to today and has no grace window. It is the run of
  consecutive buckets counted back from the most recent logged bucket, however long ago
  that bucket was. A ledger with a single entry, of any age, has a streak of 1
  (`Streaks.StreakSingle`).
- The completion branch of a quantitative goal has no status guard, so a Cancelled goal
  that reaches its target becomes Complete (`Quantities.CancelledCompletes`). The
  end-date rule of a time-based goal completes only an InProgress goal.
- The Daily branch walks the sorted distinct days directly. Weekly and Monthly
  deduplicate their buckets a second time.
- `GenerateSummaryReport` and `ToString` read the status before `CalculateProgress`
  runs. The text therefore shows the status from before the recomputation
  (`Goals.SummaryShowsStatusBefore`). `GenerateSummaryReport` also shows the ID passed to
  it, not the goal's own.
- Before `Initialize`, `CheckAndUnlock` and `GetAchievementStatus` dereference null
  caches, and `SeedInitialTemplates` dereferences the null repository. `InsertAchievementTemplate`
  throws. All four are modelled as returning `Err(NotInitialized)` with nothing changed.
- A log write that fails throws out of the `CheckAndUnlock` loop. It is modelled as
  `Err(StoreWriteFailed)`. Records written before the failure stay, and the pair whose
  write failed is not cached.

## Model

| member | source | states |
|---|---|---|
| Quantities.SumAppend | QuantitativeGoal.cs:32 | logging one more entry adds exactly its value to the current value |
| Quantities.SumPermutation | QuantitativeGoal.cs:32 | the current value does not depend on the order of the ledger: two ledgers with the same entries (as multisets) have the same sum |
| Quantities.QuantitativeStatus | QuantitativeGoal.cs:33-44 | the status becomes Complete iff it was Complete or the target is positive and the sum reaches it; otherwise it is unchanged, so an invalid target leaves it alone |
| Quantities.QuantitativeReport | QuantitativeGoal.cs:33-45 | a non-positive target gives "Target Invalid"; otherwise the percentage is at most 100, is exactly 100 iff the sum reaches the target (overshoot included), and below the target is current / target * 100 |
| Quantities.CompleteIsFinal | QuantitativeGoal.cs:40-42 | recomputation never takes a Complete goal out of Complete |
| Quantities.QuantitativeIdempotent | QuantitativeGoal.cs:29-46 | recomputing on an unchanged ledger leaves the status as the first recomputation set it |
| Quantities.CancelledCompletes | QuantitativeGoal.cs:40-42 | a Cancelled goal whose sum reaches a positive target becomes Complete |
| Quantities.MoreProgressNeverUncompletes | QuantitativeGoal.cs:32-42 | once the status is Complete, logging a non-negative entry keeps it Complete |
| Streaks.WeekBucketIsSunday | TimeBaseGoal.cs:70 | a week bucket is a Sunday, no later than the day and at most six days before it |
| Streaks.BucketMonotone | TimeBaseGoal.cs:70-88 | a later day never falls in an earlier day, week or month bucket |
| Calendar.DayNumberOrder | TimeBaseGoal.cs:44 | the day number orders dates exactly as calendar order does, so sorting by it is OrderByDescending on dates |
| Calendar.DayNumberInjective | TimeBaseGoal.cs:43 | two dates are the same day iff their day numbers agree, so Distinct on dates and on day numbers agree |
| Calendar.MonthIndexMonotone | TimeBaseGoal.cs:88 | the month of a later day is never earlier |
| Streaks.SortDescendingSorted | TimeBaseGoal.cs:44 | OrderByDescending yields the days newest first |
| Streaks.SortedDaysMembers | TimeBaseGoal.cs:41-45 | the deduplicated sorted days are exactly the calendar days of the ledger |
| Streaks.LoggedBucketsDecreasing | TimeBaseGoal.cs:41-88 | the bucket list each branch walks is strictly decreasing (newest first, no repeats), for every frequency |
| Streaks.LoggedBucketsMembers | TimeBaseGoal.cs:41-88 | the bucket list holds exactly the buckets in which something was logged |
| Streaks.CountRun | TimeBaseGoal.cs:47-103 | the walk counts at least one bucket, every counted bucket is exactly one step older than the previous one, and it stops at the end or at the first gap |
| Streaks.CalculateCurrentStreak | TimeBaseGoal.cs:34-106 | the result is the streak: 0 iff the ledger is empty, otherwise the length of the run of consecutive buckets ending at the latest logged bucket, at most the number of distinct buckets |
| Streaks.WalkStopped | TimeBaseGoal.cs:54-101 | a walk that stopped at the first gap has counted exactly that run |
| Streaks.LatestKeyIsMax | TimeBaseGoal.cs:44-45 | the run starts at a logged bucket that no other logged bucket is later than |
| Streaks.RunUnique | TimeBaseGoal.cs:47-106 | the run length from a given top bucket is unique, so the streak is well defined |
| Streaks.LoggedDaysEmpty | TimeBaseGoal.cs:36-39 | the ledger logs no day iff it is empty |
| Streaks.StreakDependsOnlyOnDays | TimeBaseGoal.cs:41-45 | two ledgers that log the same calendar days have the same streak |
| Streaks.PermutedDays | TimeBaseGoal.cs:41-45 | reordering the ledger keeps its logged days, so it keeps the streak |
| Streaks.RetimedDays | TimeBaseGoal.cs:42 | moving an entry to another time of the same day keeps the logged days, so it keeps the streak |
| Streaks.AppendBuckets | TimeBaseGoal.cs:41-45 | appending an entry adds exactly its day and its bucket |
| Streaks.StreakSameBucket | TimeBaseGoal.cs:41-88 | another entry in an already-logged bucket (a duplicate day, or the same week or month) leaves the streak unchanged |
| Streaks.StreakExtends | TimeBaseGoal.cs:54-101 | an entry in the bucket one step after the latest one extends the streak by exactly one |
| Streaks.StreakRestarts | TimeBaseGoal.cs:61-64 | an entry more than one step after the latest bucket restarts the streak at 1 |
| Streaks.StreakSingle | TimeBaseGoal.cs:47 | a ledger of one entry has a streak of 1, however old the entry is |
| Streaks.ThreeDayStreak | Program.cs:62-72 | daily entries on three consecutive days, such as today-3, today-2 and today-1, give a streak of 3 |
| Streaks.TwoDayStreak | TimeBaseGoal.cs:53-65 | daily entries on two consecutive days give 2, and the second day is the latest bucket |
| Streaks.GapStopsStreak | TimeBaseGoal.cs:61-64 | daily entries on D-3, D-1 and D stop at the missing D-2 and give 2 |
| Streaks.SundayStartsWeek | TimeBaseGoal.cs:70-83 | a Saturday and the Sunday after it fall in consecutive weeks: streak 2 |
| Streaks.SameWeek | TimeBaseGoal.cs:70 | a Monday and the Saturday after it are one week: streak 1 |
| Streaks.ConsecutiveMonths | TimeBaseGoal.cs:88-101 | December, January and February entries (31 January and 1 February included) give a monthly streak of 3 |
| Streaks.TimeBasedStatus | TimeBaseGoal.cs:125-128 | the status becomes Complete iff it was Complete, or it was InProgress and today is later than the end date; any change is InProgress to Complete |
| Streaks.TimeBasedStatusSettles | TimeBaseGoal.cs:125-128 | the end-date rule never leaves Complete, and applying it twice is the same as once |
| Streaks.CancelledStaysCancelled | TimeBaseGoal.cs:125-128 | a Cancelled goal stays Cancelled however late it is |
| Streaks.TimeBasedReport | TimeBaseGoal.cs:108-129 | the report carries the streak and the frequency; its unit is "Day" iff the frequency is Daily, "Week" iff Weekly, "Month" iff Monthly |
| Text.JoinSplit | AchievementManager.cs:86 | joining the pieces of Split with the separator restores the string |
| Text.SplitJoin | AchievementManager.cs:86 | splitting separator-free pieces joined by the separator gives the pieces back |
| Text.SplitPieces | AchievementManager.cs:86-87 | Split yields one more piece than there are separators, and no piece holds the separator |
| Text.RemoveTrailing | AchievementManager.cs:116 | removing ".Count" from a dot-free name followed by ".Count" leaves the name |
| Text.ParseInt32 | AchievementManager.cs:101 | int.TryParse succeeds only with a value in 32-bit range |
| Text.ParseInt32Printed | AchievementManager.cs:101 | an int in 32-bit range, printed in decimal, parses back to itself |
| Text.ParseDecimal | AchievementManager.cs:152 | decimal.TryParse succeeds only with a value whose magnitude is at most 79228162514264337593543950335, the largest decimal |
| Text.ParseDecimalPrinted | AchievementManager.cs:152 | an integer within the decimal range, printed in decimal, parses as the same decimal |
| Text.ParseTwoAndAHalf | AchievementManager.cs:152 | the literal "2.5" parses as 2.5 |
| Conditions.ParseCondition | AchievementManager.cs:86-91 | a condition parses iff it splits on ' ' into exactly three tokens, and the tokens joined by ' ' are the condition |
| Conditions.ParseFormat | AchievementManager.cs:86-91 | three space-free tokens written with single spaces parse back to those tokens |
| Conditions.EvaluateCondition | AchievementManager.cs:81-183 | total; false for every condition without exactly three tokens, with an operator other than >= or ==, with an unparsable literal, with a global selector on a goal that is not Complete, or with a direct selector that is not a decimal or int property |
| Conditions.GlobalCountCondition | AchievementManager.cs:95-111 | "GlobalCompletedGoalCount op n" holds iff the goal is Complete and the count compares true with n |
| Conditions.CountCondition | AchievementManager.cs:114-135 | "list.Count op n" holds iff the property is a list whose length compares true with n |
| Conditions.FirstEntryCondition | AchievementManager.cs:114-135 | "ProgressEntries.Count == 1" holds iff the ledger has exactly one entry |
| Conditions.DirectCondition | AchievementManager.cs:140-176 | for any space-free literal: a decimal property holds iff decimal.TryParse reads the literal and the comparison is true; an int property likewise with int.TryParse; a missing property or one of another kind is false |
| Conditions.DirectIntCondition | AchievementManager.cs:140-176 | with an int literal in 32-bit range, printed in decimal, a decimal or int property is compared with that number |
| Conditions.CurrentValueProperty | AchievementManager.cs:140-144 | the CurrentValue property is the current value of a quantitative goal and is missing from a time-based one |
| Conditions.FractionalCondition | AchievementManager.cs:149-160 | "CurrentValue >= 2.5" holds iff the goal is quantitative with a current value of at least 2.5 |
| Conditions.StreakCondition | AchievementManager.cs:140-176 | "CurrentStreak >= n" holds iff the goal is time-based with a streak of at least n |
| Conditions.StatusConditionFalse | AchievementManager.cs:140-176 | a condition on Status (an enum) is false whatever the literal |
| Achievements.UnlockRunAppends | AchievementManager.cs:54-77 | a pass only appends to the log; every appended record is for this goal and dated now; the earned set grows by exactly the pairs of the appended records |
| Achievements.UnlockRunOnlyThisGoal | AchievementManager.cs:67-73 | the earned set only grows, and every pair a pass adds carries the goal's ID |
| Achievements.SettledRunIsNoop | AchievementManager.cs:54-77 | a pass over templates that are all skipped or false changes nothing |
| Achievements.RunSettles | AchievementManager.cs:57-73 | after a pass that did not fail over non-repeatable templates, every template is skipped or false |
| Achievements.UnlockIdempotent | AchievementManager.cs:57-73 | with no repeatable template, a second pass after one that did not fail writes nothing and caches nothing |
| Achievements.NonRepeatableLoggedOnce | AchievementManager.cs:57-73 | with distinct template IDs, a pass writes at most one record for a non-repeatable template's pair, and none if the pair was already earned |
| Achievements.HoldingIsEarned | AchievementManager.cs:57-73 | a non-repeatable template whose condition holds is earned after any pass that did not fail |
| Achievements.NonRepeatableLoggedExactlyOnce | AchievementManager.cs:57-73 | the first pass that does not fail, with the condition true and the pair not yet earned, writes exactly one record for it |
| Achievements.RepeatableLogsEveryPass | AchievementManager.cs:57-70 | a repeatable template whose condition holds gets a new record on every pass that does not fail, earned before or not |
| Achievements.SelectMembers | AchievementManager.cs:212-222 | a template is listed as unlocked (locked) iff it is in the catalog and its ID is (is not) earned |
| Achievements.SelectPartitions | AchievementManager.cs:212-222 | the unlocked and locked lists together are the catalog: every template lands in exactly one |
| Achievements.SeededShape | AchievementManager.cs:231-323 | seeding inserts only templates whose name the snapshot lacks, with consecutive store IDs, and inserts every starter whose name is absent |
| Achievements.SeededPicks | AchievementManager.cs:231-323 | seeding inserts exactly the starters at the positions whose name the snapshot lacks, in starter order, each with its own name, description, condition and repeatable flag, and only its ID changed to the next consecutive store ID |
| Achievements.SeededNothing | AchievementManager.cs:236-323 | seeding a store that already holds every starter name inserts nothing |
| Achievements.SeedTwice | AchievementManager.cs:231-323 | a second seeding run over a store the first run seeded inserts nothing |
| Achievements.FirstEntryStarter | AchievementManager.cs:236-244 | "Off the Starting Blocks" is earned exactly by a goal with one ledger entry |
| Achievements.ConsistentStarter | AchievementManager.cs:247-255 | "Getting Consistent" is earned exactly by a time-based goal with a streak of 3 or more |
| Achievements.OneDownStarter | AchievementManager.cs:282-290 | "One Down!" is earned exactly by a Complete goal while the completed count is 1 |
| Achievements.HoarderStarter | AchievementManager.cs:315-323 | "Goal Hoarder" is earned exactly by a Complete goal once 20 or more goals are complete |
| Achievements.Engine.constructor | AchievementManager.cs:18-22 | before Initialize, the caches are empty over a store with distinct template IDs |
| Achievements.Engine.Initialize | AchievementManager.cs:25-35 | the catalog becomes the stored templates and the earned set the pairs of the log; the store is unchanged |
| Achievements.Engine.LoadEarnedAchievementsCache | AchievementManager.cs:36-46 | the earned set is exactly one pair per log record |
| Achievements.Engine.CheckAndUnlock | AchievementManager.cs:49-78 | a goal ID <= 0 changes nothing; before Initialize it is an error with nothing changed; otherwise the earned set and the log are those of the pass over the catalog with the goal's condition verdicts, and the result is an error iff a write failed |
| Achievements.Engine.InsertAchievementTemplate | AchievementManager.cs:186-201 | fails before Initialize; otherwise the template gets the next store ID and goes at the end of the store and of the catalog, other templates unchanged |
| Achievements.Engine.GetAchievementStatus | AchievementManager.cs:204-225 | returns the catalog split in catalog order: a template is unlocked iff it is in the catalog and some earned pair, for any goal, carries its ID, and locked iff it is in the catalog and none does; the two lists together are the catalog; nothing changes |
| Achievements.Engine.InsertIfAbsent | AchievementManager.cs:236-244 | one seeding block: the template is inserted with the next ID iff the snapshot lacks its name |
| Achievements.Engine.SeedInitialTemplates | AchievementManager.cs:228-324 | fails before Initialize; otherwise the store and the catalog grow by the seeding run over the one snapshot, which by `Achievements.SeededPicks` is exactly the starters whose names the snapshot lacks, unchanged but for their consecutive IDs, in order |
| Goals.Report | QuantitativeGoal.cs:33-45 | the report is a streak iff the goal is time-based, "Target Invalid" iff the target is not positive, and carries the derived value |
| Goals.DerivedIsDetermined | QuantitativeGoal.cs:29-46 | the recomputed status and details are a function of the ledger, the clock and the prior state |
| Goals.DerivedIsStable | TimeBaseGoal.cs:120-130 | recomputing right after a recomputation, at the same time, changes nothing |
| Goals.CompleteStaysComplete | TimeBaseGoal.cs:125-128 | no recomputation of either variant downgrades a Complete goal |
| Goals.Goal.QuantitativeGoal | QuantitativeGoal.cs:19-23 | a new quantitative goal is InProgress with an empty ledger, ID 0 and a current value of 0 |
| Goals.Goal.TimeBasedGoal | TimeBaseGoal.cs:25-28 | a new time-based goal is InProgress with an empty ledger, ID 0 and a streak of 0 |
| Goals.Goal.CalculateProgress | QuantitativeGoal.cs:29-46 | a quantitative goal takes the sum of its ledger as current value and follows the quantitative status rule; a time-based goal (TimeBaseGoal.cs:120-130) takes the streak of its ledger and follows the end-date rule; identity and ledger unchanged; the report matches the new details |
| Goals.Goal.LogProgress | Goal.cs:55-62 | the entry, stamped with the goal's ID, is appended; progress is recomputed; then the engine's pass runs on the recomputed goal |
| Goals.Goal.GenerateSummaryReport | Goal.cs:65-68 | recomputes progress; the summary shows the ID argument, the status from before, and the new report; an overdue InProgress time-based goal becomes Complete while its summary shows InProgress |
| Goals.Goal.ToString | Goal.cs:71-82 | recomputes progress; shows every property, the status from before, the new report and the entry count |
| Goals.SummaryShowsStatusBefore | TimeBaseGoal.cs:125-128 | the recomputation of an overdue InProgress time-based goal changes its status to Complete, so a status read before it differs from the new one |

## Left out

- Console output, the text rendering of reports with the "N1" number format, and the
  summary and ToString strings. They are modelled as records that carry the values shown.
- `DateTime.Now` and `DateTime.Today`: the clock is the parameter `now`.
- Reflection: it is replaced by a closed table of the goal's public properties.
- `int.TryParse` and `decimal.TryParse` culture details (thousands separators,
  exponents, currency symbols, `NumberStyles.Any`). The literal grammar is surrounding
  white space, an optional sign, digits and at most one `.`.
- Goals.Goal.CalculateProgress: decimal is exact here. Decimal's 28-digit rounding and
  its overflow exception are not modelled.
- Streaks.CalculateCurrentStreak: the week key `d.AddDays(-(int)d.DayOfWeek)` throws in
  .NET for a Weekly entry dated 0001-01-01 to 0001-01-06, whose Sunday would fall in year 0
  (TimeBaseGoal.cs:70). The model does not raise that exception. It gives such an entry the
  week key -1 (the Sunday before 0001-01-01) and computes a streak. The other date steps
  (TimeBaseGoal.cs:56, 74, 92) only run when an older logged date exists, so they never
  leave the calendar.
- Text.ParseDecimal: decimal.TryParse rounds a literal to 28 or 29 significant digits
  before checking its range. The model reads the literal exactly and checks the exact
  value against the bound. So it rejects a literal such as
  `79228162514264337593543950335.4`, which .NET rounds down and accepts, and it keeps
  digits that .NET rounds away.
- Frequency and GoalStatus are closed in the model, with exactly the enum's named values.
  An integer outside the enum, cast to `FrequencyUnit` when a goal is loaded, would take
  the `_ => ""` arm of GetFrequencyUnitString (TimeBaseGoal.cs:115) and no branch of the
  streak switch, so its streak stays 1. The model has no such value.
- Goals.Goal.LogProgress: the goal and its entries are values in the model. A caller
  holding the same `ProgressEntry` object does not see the ID stamp. Aliasing between a
  goal, its entries and the template objects is not modelled.
- Achievements.Engine.InsertAchievementTemplate: the store always accepts a template
  insert. Only the achievement-log write can fail.
- The completed-goal count (`GetCompletedGoalCount`) and the stored achievement log
  (`GetAllAchievementLogs`): these are inputs, because the repository that answers them
  is not part of this model.
- Concurrency: the engine is single-threaded, as the program is.
- The parameterless constructors used when loading from the database. Their fields are
  set afterwards by the repository.
- GoalRepository.cs (SQLite persistence, reloading, and its calls to recompute and
  unlock), SQLiteDatabse.cs, Helper.cs (console input) and Program.cs (the demo
  driver, whose streak scenario is `Streaks.ThreeDayStreak`).
- AcievementManager.cs and AcievementTemplateModel.cs, the superseded versions of the
  engine and of the template class, and IProgressReporter.cs, a bare interface.
