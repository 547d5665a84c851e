/**
 * A goal (Goal.cs, QuantitativeGoal.cs, TimeBaseGoal.cs): its identity, its status, its
 * ledger of progress entries and the variant-specific details. CalculateProgress
 * rederives the details and the status from the ledger; LogProgress appends an entry,
 * recalculates and then asks the achievement engine to unlock what the goal now meets.
 * The clock is a parameter: now stands for DateTime.Now and its date for DateTime.Today.
 */
module Goals {
  import opened Outcomes
  import opened Calendar
  import opened Records
  import opened Streaks
  import opened Quantities
  import opened Achievements

  /**
   * What CalculateProgress derives from status s0 and details d0 over a ledger: the sum
   * and the status rule of a quantitative goal, or the streak and the end-date rule of a
   * time-based one. The target, the unit and the frequency are kept.
   */
  ghost predicate Derived(s0: GoalStatus, d0: Details, entries: seq<ProgressEntry>, endDate: DateTime,
                          now: DateTime, s1: GoalStatus, d1: Details)
  {
    match d0
    case Quantitative(target, _, unit) =>
      var current := SumValues(entries);
      d1 == Quantitative(target, current, unit) && s1 == QuantitativeStatus(s0, target, current)
    case TimeBased(f, _) =>
      d1.TimeBased? && d1.requiredFrequency == f && IsStreak(f, entries, d1.currentStreak)
      && s1 == TimeBasedStatus(s0, Midnight(now.date), endDate)
  }

  /** The report CalculateProgress returns, read off the derived details. */
  function Report(d: Details): (r: ProgressReport)
    ensures d.TimeBased? <==> r.StreakCount?
    ensures d.Quantitative? && d.targetValue <= 0.0 <==> r.TargetInvalid?
    ensures r.PercentComplete? ==> r.currentValue == d.currentValue && r.targetValue == d.targetValue
    ensures r.StreakCount? ==> r.streak == d.currentStreak && r.requiredFrequency == d.requiredFrequency
  {
    match d
    case Quantitative(target, current, unit) => QuantitativeReport(target, current, unit)
    case TimeBased(f, streak) => TimeBasedReport(streak, f)
  }

  /** The derived state is a function of the ledger, the clock and the state before. */
  lemma DerivedIsDetermined(s0: GoalStatus, d0: Details, entries: seq<ProgressEntry>, endDate: DateTime,
                            now: DateTime, s1: GoalStatus, d1: Details, s2: GoalStatus, d2: Details)
    requires Derived(s0, d0, entries, endDate, now, s1, d1)
    requires Derived(s0, d0, entries, endDate, now, s2, d2)
    ensures s1 == s2 && d1 == d2
  {
    if d0.TimeBased? {
      StreakDependsOnlyOnDays(d0.requiredFrequency, entries, entries, d1.currentStreak, d2.currentStreak);
    }
  }

  /** Recalculating a goal whose state was just derived, at the same time, changes nothing. */
  lemma DerivedIsStable(s0: GoalStatus, d0: Details, entries: seq<ProgressEntry>, endDate: DateTime,
                        now: DateTime, s1: GoalStatus, d1: Details)
    requires Derived(s0, d0, entries, endDate, now, s1, d1)
    ensures Derived(s1, d1, entries, endDate, now, s1, d1)
  {
    if d0.TimeBased? {
      TimeBasedStatusSettles(s0, Midnight(now.date), endDate);
    } else {
      QuantitativeIdempotent(s0, d0.targetValue, entries);
    }
  }

  /** A Complete goal stays Complete through any recalculation. */
  lemma CompleteStaysComplete(d0: Details, entries: seq<ProgressEntry>, endDate: DateTime,
                              now: DateTime, s1: GoalStatus, d1: Details)
    requires Derived(Complete, d0, entries, endDate, now, s1, d1)
    ensures s1 == Complete
  {
    if d0.TimeBased? {
      TimeBasedStatusSettles(Complete, Midnight(now.date), endDate);
    }
  }

  /** GenerateSummaryReport's line: "Goal ID: {goalID} | Title: {Title} | Status: {Status} | Progress: {...}". */
  datatype Summary = Summary(goalId: int, title: string, status: GoalStatus, progress: ProgressReport)

  /** ToString's block: every property, the progress and the number of entries logged. */
  datatype GoalDetails = GoalDetails(
    goalId: int, title: string, description: string, startDate: DateTime, endDate: DateTime,
    status: GoalStatus, progress: ProgressReport, entryCount: nat)

  class Goal {
    var goalId: int                  // set by the store, 0 until saved
    var title: string
    var description: string
    var startDate: DateTime
    var endDate: DateTime
    var status: GoalStatus
    var entries: seq<ProgressEntry>   // ProgressEntries, the ledger
    var details: Details

    /** The goal's public properties, as the condition evaluator reads them. */
    function View(): GoalView
      reads this
    {
      GoalView(goalId, title, description, startDate, endDate, status, entries, details)
    }

    /** The properties CalculateProgress never touches. */
    function Identity(): (int, string, string, DateTime, DateTime)
      reads this
    {
      (goalId, title, description, startDate, endDate)
    }

    /** new QuantitativeGoal(...): InProgress, an empty ledger, a current value of 0. */
    constructor QuantitativeGoal(title: string, description: string, startDate: DateTime, endDate: DateTime,
                                 targetValue: real, unitOfMeasure: string)
      ensures Identity() == (0, title, description, startDate, endDate)
      ensures status == InProgress && entries == []
      ensures details == Quantitative(targetValue, 0.0, unitOfMeasure)
    {
      this.goalId := 0;
      this.title := title;
      this.description := description;
      this.startDate := startDate;
      this.endDate := endDate;
      this.status := InProgress;
      this.entries := [];
      this.details := Quantitative(targetValue, 0.0, unitOfMeasure);
    }

    /** new TimeBasedGoal(...): InProgress, an empty ledger, a streak of 0. */
    constructor TimeBasedGoal(title: string, description: string, startDate: DateTime, endDate: DateTime,
                              requiredFrequency: Frequency)
      ensures Identity() == (0, title, description, startDate, endDate)
      ensures status == InProgress && entries == []
      ensures details == TimeBased(requiredFrequency, 0)
    {
      this.goalId := 0;
      this.title := title;
      this.description := description;
      this.startDate := startDate;
      this.endDate := endDate;
      this.status := InProgress;
      this.entries := [];
      this.details := TimeBased(requiredFrequency, 0);
    }

    /**
     * CalculateProgress: rederive the current value or the streak from the ledger, apply
     * the variant's status rule, and report.
     */
    method CalculateProgress(now: DateTime) returns (report: ProgressReport)
      modifies this
      ensures Identity() == old(Identity()) && entries == old(entries)
      ensures Derived(old(status), old(details), entries, endDate, now, status, details)
      ensures report == Report(details)
    {
      match details {
        case Quantitative(target, _, unit) =>
          var current := SumValues(entries);
          details := Quantitative(target, current, unit);
          if target <= 0.0 {
            return TargetInvalid;
          }
          if current >= target {
            status := Complete;
          }
          report := QuantitativeReport(target, current, unit);
        case TimeBased(f, _) =>
          var streak := CalculateCurrentStreak(entries, f);
          details := TimeBased(f, streak);
          if Later(Midnight(now.date), endDate) && status == InProgress {
            status := Complete;
          }
          report := TimeBasedReport(streak, f);
      }
    }

    /**
     * LogProgress: stamp the entry with this goal's ID, append it to the ledger,
     * recalculate, then run the engine's CheckAndUnlock on the recalculated goal. An
     * error from the engine leaves the goal logged and recalculated.
     */
    method LogProgress(entry: ProgressEntry, engine: Engine, now: DateTime, completedCount: int,
                       accepts: AchievementLog -> bool) returns (r: Result<(), EngineError>)
      requires engine.Valid()
      modifies this, engine
      ensures Identity() == old(Identity())
      ensures entries == old(entries) + [entry.(goalId := goalId)]
      ensures Derived(old(status), old(details), entries, endDate, now, status, details)
      ensures engine.Valid()
      ensures engine.initialized == old(engine.initialized) && engine.templates == old(engine.templates)
      ensures engine.storedTemplates == old(engine.storedTemplates)
      ensures engine.nextTemplateId == old(engine.nextTemplateId)
      ensures goalId <= 0 ==> r.Ok? && engine.earned == old(engine.earned) && engine.logs == old(engine.logs)
      ensures goalId > 0 && !engine.initialized ==>
        r == Err(NotInitialized) && engine.earned == old(engine.earned) && engine.logs == old(engine.logs)
      ensures goalId > 0 && engine.initialized ==>
        var run := UnlockRun(engine.templates, goalId, Verdict(View(), completedCount), now, accepts,
                             old(engine.earned), old(engine.logs));
        engine.earned == run.earned && engine.logs == run.logs && (r.Ok? <==> !run.failed)
    {
      entries := entries + [entry.(goalId := goalId)];
      var _ := CalculateProgress(now);
      r := engine.CheckAndUnlock(View(), completedCount, now, accepts);
    }

    /**
     * GenerateSummaryReport: the ID shown is the argument, not the goal's own, and the
     * status shown is read before the progress is recalculated.
     */
    method GenerateSummaryReport(goalID: int, now: DateTime) returns (s: Summary)
      modifies this
      ensures Identity() == old(Identity()) && entries == old(entries)
      ensures Derived(old(status), old(details), entries, endDate, now, status, details)
      ensures s == Summary(goalID, title, old(status), Report(details))
      ensures old(status) == InProgress && details.TimeBased? && Later(Midnight(now.date), endDate) ==>
        s.status == InProgress && status == Complete
    {
      var shown := status;
      var progress := CalculateProgress(now);
      s := Summary(goalID, title, shown, progress);
    }

    /** ToString: the status shown is read before the progress is recalculated. */
    method ToString(now: DateTime) returns (d: GoalDetails)
      modifies this
      ensures Identity() == old(Identity()) && entries == old(entries)
      ensures Derived(old(status), old(details), entries, endDate, now, status, details)
      ensures d == GoalDetails(goalId, title, description, startDate, endDate, old(status),
                               Report(details), |entries|)
    {
      var shown := status;
      var progress := CalculateProgress(now);
      d := GoalDetails(goalId, title, description, startDate, endDate, shown, progress, |entries|);
    }
  }

  /**
   * The summary can lag the goal: a time-based goal still InProgress after its end date
   * is shown as InProgress by the report that completes it.
   */
  lemma SummaryShowsStatusBefore(s0: GoalStatus, d0: Details, entries: seq<ProgressEntry>, endDate: DateTime,
                                 now: DateTime, s1: GoalStatus, d1: Details)
    requires d0.TimeBased? && s0 == InProgress && Later(Midnight(now.date), endDate)
    requires Derived(s0, d0, entries, endDate, now, s1, d1)
    ensures s1 == Complete && s1 != s0
  {
  }
}
