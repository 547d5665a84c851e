/**
 * The achievement engine (AchievementManager.cs). The engine holds two caches: the
 * template catalog and the set of earned (goal ID, achievement ID) pairs. It also holds,
 * as fields, the parts of the store it reads and writes: the stored templates, the
 * achievement log, and the next AUTOINCREMENT template ID. Before Initialize the caches
 * are absent; every operation that would dereference them reports NotInitialized.
 */
module Achievements {
  import opened Outcomes
  import opened Calendar
  import opened Records
  import opened Text
  import opened Conditions

  datatype EngineError =
    | NotInitialized     // the repository and caches have not been loaded
    | StoreWriteFailed   // the store refused an achievement log record

  /** The (goal, achievement) pairs recorded in a log. */
  function Pairs(logs: seq<AchievementLog>): set<(int, int)> {
    set l | l in logs :: (l.goalId, l.achievementId)
  }

  lemma PairsAppend(logs: seq<AchievementLog>, l: AchievementLog)
    ensures Pairs(logs + [l]) == Pairs(logs) + {(l.goalId, l.achievementId)}
  {
    assert forall x :: x in logs + [l] <==> x in logs || x == l;
  }

  /** The number of log records for the pair p. */
  function Count(logs: seq<AchievementLog>, p: (int, int)): (n: nat)
    ensures n <= |logs|
    ensures n == 0 <==> p !in Pairs(logs)
  {
    if |logs| == 0 then 0
    else
      var rest := Count(logs[1..], p);
      assert Pairs(logs) == Pairs(logs[1..]) + {(logs[0].goalId, logs[0].achievementId)} by {
        assert forall x :: x in logs <==> x in logs[1..] || x == logs[0];
      }
      (if (logs[0].goalId, logs[0].achievementId) == p then 1 else 0) + rest
  }

  lemma {:induction false} CountConcat(a: seq<AchievementLog>, b: seq<AchievementLog>, p: (int, int))
    ensures Count(a + b, p) == Count(a, p) + Count(b, p)
  {
    if |a| == 0 {
      assert a + b == b;
    } else {
      assert (a + b)[1..] == a[1..] + b;
      CountConcat(a[1..], b, p);
    }
  }

  // ---------------------------------------------------------------- CheckAndUnlock, as a fold

  /** What a pass over the templates leaves: the earned pairs, the log, and whether a write failed. */
  datatype RunResult = RunResult(earned: set<(int, int)>, logs: seq<AchievementLog>, failed: bool)

  /** A template is skipped when it is not repeatable and the goal has already earned it. */
  predicate Skipped(t: Template, goalId: int, earned: set<(int, int)>) {
    !t.isRepeatable && (goalId, t.achievementId) in earned
  }

  /** The verdict of EvaluateCondition on a condition text, for one goal and completed-goal count. */
  function Verdict(g: GoalView, completedCount: int): string -> bool {
    text => EvaluateCondition(text, g, completedCount)
  }

  /**
   * The loop of CheckAndUnlock over the templates ts for the goal goalId, from the earned
   * set and the log it starts with; holds is the condition verdict (Verdict of the goal
   * and count). For each template that is not skipped and whose condition holds, one
   * record dated now is written to the store, then the pair is cached. accepts tells
   * whether the store takes a record; a refused write throws and ends the pass.
   */
  function UnlockRun(ts: seq<Template>, goalId: int, holds: string -> bool, now: DateTime,
                     accepts: AchievementLog -> bool,
                     earned: set<(int, int)>, logs: seq<AchievementLog>): RunResult
  {
    if |ts| == 0 then RunResult(earned, logs, false)
    else
      var t := ts[0];
      if Skipped(t, goalId, earned) then
        UnlockRun(ts[1..], goalId, holds, now, accepts, earned, logs)
      else if holds(t.unlockCondition) then
        var log := AchievementLog(goalId, t.achievementId, now);
        if !accepts(log) then RunResult(earned, logs, true)
        else UnlockRun(ts[1..], goalId, holds, now, accepts,
                       earned + {(goalId, t.achievementId)}, logs + [log])
      else
        UnlockRun(ts[1..], goalId, holds, now, accepts, earned, logs)
  }

  /**
   * A pass only appends to the log, every record it appends is for this goal and dated
   * now, and the earned set grows by exactly the pairs of the appended records: no pair is
   * cached without its record, so a refused write leaves its pair out.
   */
  lemma {:induction false} UnlockRunAppends(ts: seq<Template>, goalId: int, holds: string -> bool, now: DateTime,
                                            accepts: AchievementLog -> bool,
                                            earned: set<(int, int)>, logs: seq<AchievementLog>)
    ensures var r := UnlockRun(ts, goalId, holds, now, accepts, earned, logs);
      |logs| <= |r.logs| && r.logs[..|logs|] == logs
      && r.earned == earned + Pairs(r.logs[|logs|..])
      && (forall i :: |logs| <= i < |r.logs| ==> r.logs[i].goalId == goalId && r.logs[i].dateEarned == now)
  {
    UnlockRunPrefix(ts, goalId, holds, now, accepts, earned, logs);
    UnlockRunStamps(ts, goalId, holds, now, accepts, earned, logs);
    UnlockRunEarned(ts, goalId, holds, now, accepts, earned, logs);
  }

  lemma {:induction false} UnlockRunPrefix(ts: seq<Template>, goalId: int, holds: string -> bool, now: DateTime,
                                           accepts: AchievementLog -> bool,
                                           earned: set<(int, int)>, logs: seq<AchievementLog>)
    ensures var r := UnlockRun(ts, goalId, holds, now, accepts, earned, logs);
      |logs| <= |r.logs| && r.logs[..|logs|] == logs
  {
    if |ts| > 0 {
      var t := ts[0];
      var log := AchievementLog(goalId, t.achievementId, now);
      if Skipped(t, goalId, earned) || !holds(t.unlockCondition) {
        UnlockRunPrefix(ts[1..], goalId, holds, now, accepts, earned, logs);
      } else if accepts(log) {
        var logs' := logs + [log];
        UnlockRunPrefix(ts[1..], goalId, holds, now, accepts, earned + {(goalId, t.achievementId)}, logs');
        var r := UnlockRun(ts, goalId, holds, now, accepts, earned, logs);
        assert r.logs[..|logs|] == r.logs[..|logs'|][..|logs|];
      }
    }
  }

  /** Every log from index k on was written for goalId at time now. */
  ghost predicate StampedFrom(logs: seq<AchievementLog>, k: nat, goalId: int, now: DateTime) {
    forall i :: k <= i < |logs| ==> logs[i].goalId == goalId && logs[i].dateEarned == now
  }

  lemma {:induction false} UnlockRunStamps(ts: seq<Template>, goalId: int, holds: string -> bool, now: DateTime,
                                           accepts: AchievementLog -> bool,
                                           earned: set<(int, int)>, logs: seq<AchievementLog>)
    ensures StampedFrom(UnlockRun(ts, goalId, holds, now, accepts, earned, logs).logs, |logs|, goalId, now)
  {
    if |ts| > 0 {
      var t := ts[0];
      var log := AchievementLog(goalId, t.achievementId, now);
      if Skipped(t, goalId, earned) || !holds(t.unlockCondition) {
        UnlockRunStamps(ts[1..], goalId, holds, now, accepts, earned, logs);
      } else if accepts(log) {
        var logs' := logs + [log];
        UnlockRunStamps(ts[1..], goalId, holds, now, accepts, earned + {(goalId, t.achievementId)}, logs');
        UnlockRunPrefix(ts[1..], goalId, holds, now, accepts, earned + {(goalId, t.achievementId)}, logs');
        var r := UnlockRun(ts, goalId, holds, now, accepts, earned, logs);
        assert r.logs[|logs|] == log by {
          assert r.logs[..|logs'|][|logs|] == r.logs[|logs|];
        }
      }
    }
  }

  lemma {:induction false} UnlockRunEarned(ts: seq<Template>, goalId: int, holds: string -> bool, now: DateTime,
                                           accepts: AchievementLog -> bool,
                                           earned: set<(int, int)>, logs: seq<AchievementLog>)
    ensures var r := UnlockRun(ts, goalId, holds, now, accepts, earned, logs);
      |logs| <= |r.logs| && r.earned == earned + Pairs(r.logs[|logs|..])
  {
    UnlockRunPrefix(ts, goalId, holds, now, accepts, earned, logs);
    var r := UnlockRun(ts, goalId, holds, now, accepts, earned, logs);
    if |ts| > 0 {
      var t := ts[0];
      var log := AchievementLog(goalId, t.achievementId, now);
      if Skipped(t, goalId, earned) || !holds(t.unlockCondition) {
        UnlockRunEarned(ts[1..], goalId, holds, now, accepts, earned, logs);
      } else if accepts(log) {
        var logs' := logs + [log];
        UnlockRunEarned(ts[1..], goalId, holds, now, accepts, earned + {(goalId, t.achievementId)}, logs');
        UnlockRunPrefix(ts[1..], goalId, holds, now, accepts, earned + {(goalId, t.achievementId)}, logs');
        assert r.logs[|logs|..] == [log] + r.logs[|logs'|..] by {
          assert r.logs[|logs|] == logs'[|logs|];
        }
        PairsAppendFront(log, r.logs[|logs'|..]);
      } else {
        assert r.logs[|logs|..] == [];
      }
    } else {
      assert r.logs[|logs|..] == [];
    }
  }

  lemma PairsAppendFront(l: AchievementLog, logs: seq<AchievementLog>)
    ensures Pairs([l] + logs) == {(l.goalId, l.achievementId)} + Pairs(logs)
  {
    assert forall x :: x in [l] + logs <==> x == l || x in logs;
  }

  /** The pairs a pass adds all carry the goal's ID. */
  lemma UnlockRunOnlyThisGoal(ts: seq<Template>, goalId: int, holds: string -> bool, now: DateTime,
                              accepts: AchievementLog -> bool,
                              earned: set<(int, int)>, logs: seq<AchievementLog>)
    ensures var r := UnlockRun(ts, goalId, holds, now, accepts, earned, logs);
      earned <= r.earned && forall p :: p in r.earned - earned ==> p.0 == goalId
  {
    UnlockRunAppends(ts, goalId, holds, now, accepts, earned, logs);
    var r := UnlockRun(ts, goalId, holds, now, accepts, earned, logs);
    var added := r.logs[|logs|..];
    forall p | p in r.earned - earned ensures p.0 == goalId {
      assert p in Pairs(added);
      var l :| l in added && (l.goalId, l.achievementId) == p;
      var i :| 0 <= i < |added| && added[i] == l;
      assert r.logs[|logs| + i] == l;
    }
  }

  /** Every template of ts is settled: skipped, or with a condition that does not hold. */
  predicate Settled(ts: seq<Template>, goalId: int, holds: string -> bool, earned: set<(int, int)>) {
    forall i :: 0 <= i < |ts| ==>
      Skipped(ts[i], goalId, earned) || !holds(ts[i].unlockCondition)
  }

  /** A pass over settled templates changes nothing. */
  lemma {:induction false} SettledRunIsNoop(ts: seq<Template>, goalId: int, holds: string -> bool, now: DateTime,
                                           accepts: AchievementLog -> bool,
                                           earned: set<(int, int)>, logs: seq<AchievementLog>)
    requires Settled(ts, goalId, holds, earned)
    ensures UnlockRun(ts, goalId, holds, now, accepts, earned, logs) == RunResult(earned, logs, false)
  {
    if |ts| > 0 {
      assert Settled(ts[1..], goalId, holds, earned) by {
        forall i | 0 <= i < |ts[1..]|
          ensures Skipped(ts[1..][i], goalId, earned) || !holds(ts[1..][i].unlockCondition)
        {
          assert ts[1..][i] == ts[i + 1];
        }
      }
      SettledRunIsNoop(ts[1..], goalId, holds, now, accepts, earned, logs);
    }
  }

  lemma SettledGrows(ts: seq<Template>, goalId: int, holds: string -> bool, e1: set<(int, int)>, e2: set<(int, int)>)
    requires Settled(ts, goalId, holds, e1) && e1 <= e2
    ensures Settled(ts, goalId, holds, e2)
  {
  }

  /** After a pass that did not fail over templates none of which is repeatable, all of them are settled. */
  lemma {:induction false} RunSettles(ts: seq<Template>, goalId: int, holds: string -> bool, now: DateTime,
                                     accepts: AchievementLog -> bool,
                                     earned: set<(int, int)>, logs: seq<AchievementLog>)
    requires forall i :: 0 <= i < |ts| ==> !ts[i].isRepeatable
    requires !UnlockRun(ts, goalId, holds, now, accepts, earned, logs).failed
    ensures Settled(ts, goalId, holds, UnlockRun(ts, goalId, holds, now, accepts, earned, logs).earned)
  {
    if |ts| > 0 {
      var r := UnlockRun(ts, goalId, holds, now, accepts, earned, logs);
      var t := ts[0];
      var p := (goalId, t.achievementId);
      var e' := if Skipped(t, goalId, earned) || !holds(t.unlockCondition)
        then earned else earned + {p};
      var l' := if e' == earned then logs else logs + [AchievementLog(goalId, t.achievementId, now)];
      assert r == UnlockRun(ts[1..], goalId, holds, now, accepts, e', l');
      RunSettles(ts[1..], goalId, holds, now, accepts, e', l');
      UnlockRunOnlyThisGoal(ts[1..], goalId, holds, now, accepts, e', l');
      assert Skipped(t, goalId, r.earned) || !holds(t.unlockCondition);
      forall i | 0 <= i < |ts|
        ensures Skipped(ts[i], goalId, r.earned) || !holds(ts[i].unlockCondition)
      {
        if i > 0 {
          assert ts[i] == ts[1..][i - 1];
        }
      }
    }
  }

  /**
   * Unlocking is idempotent when no template is repeatable: a second pass with the same goal
   * and count, after a first pass that did not fail, writes nothing and caches nothing.
   */
  lemma UnlockIdempotent(ts: seq<Template>, goalId: int, holds: string -> bool, now: DateTime, later: DateTime,
                         accepts: AchievementLog -> bool,
                         earned: set<(int, int)>, logs: seq<AchievementLog>)
    requires forall i :: 0 <= i < |ts| ==> !ts[i].isRepeatable
    requires !UnlockRun(ts, goalId, holds, now, accepts, earned, logs).failed
    ensures var r := UnlockRun(ts, goalId, holds, now, accepts, earned, logs);
      UnlockRun(ts, goalId, holds, later, accepts, r.earned, r.logs) == RunResult(r.earned, r.logs, false)
  {
    var r := UnlockRun(ts, goalId, holds, now, accepts, earned, logs);
    RunSettles(ts, goalId, holds, now, accepts, earned, logs);
    SettledRunIsNoop(ts, goalId, holds, later, accepts, r.earned, r.logs);
  }

  /** Distinct IDs stay distinct in the tail, and none of them is the head's. */
  lemma TailDistinct(ts: seq<Template>)
    requires |ts| > 0
    requires forall i, j :: 0 <= i < j < |ts| ==> ts[i].achievementId != ts[j].achievementId
    ensures forall i, j :: 0 <= i < j < |ts[1..]| ==> ts[1..][i].achievementId != ts[1..][j].achievementId
    ensures forall i :: 0 <= i < |ts[1..]| ==> ts[1..][i].achievementId != ts[0].achievementId
  {
    forall i, j | 0 <= i < j < |ts[1..]| ensures ts[1..][i].achievementId != ts[1..][j].achievementId {
      assert ts[1..][i] == ts[i + 1] && ts[1..][j] == ts[j + 1];
    }
    forall i | 0 <= i < |ts[1..]| ensures ts[1..][i].achievementId != ts[0].achievementId {
      assert ts[1..][i] == ts[i + 1];
    }
  }

  /**
   * Over a catalog with distinct IDs, a non-repeatable template's pair is logged at most
   * once: a pass adds no record for a pair already earned, and at most one for any other.
   */
  lemma {:induction false} NonRepeatableLoggedOnce(ts: seq<Template>, goalId: int, holds: string -> bool, now: DateTime,
                                                  accepts: AchievementLog -> bool,
                                                  earned: set<(int, int)>, logs: seq<AchievementLog>, k: int)
    requires 0 <= k < |ts| && !ts[k].isRepeatable
    requires forall i, j :: 0 <= i < j < |ts| ==> ts[i].achievementId != ts[j].achievementId
    ensures var r := UnlockRun(ts, goalId, holds, now, accepts, earned, logs);
      var p := (goalId, ts[k].achievementId);
      |logs| <= |r.logs|
      && Count(r.logs[|logs|..], p) <= 1
      && (p in earned ==> Count(r.logs[|logs|..], p) == 0)
    decreases |ts|, 1
  {
    UnlockRunPrefix(ts, goalId, holds, now, accepts, earned, logs);
    var t := ts[0];
    TailDistinct(ts);
    if Skipped(t, goalId, earned) || !holds(t.unlockCondition) {
      if k == 0 {
        NotLoggedElsewhere(ts[1..], goalId, holds, now, accepts, earned, logs, ts[0].achievementId);
      } else {
        assert ts[1..][k - 1] == ts[k];
        NonRepeatableLoggedOnce(ts[1..], goalId, holds, now, accepts, earned, logs, k - 1);
      }
    } else if accepts(AchievementLog(goalId, t.achievementId, now)) {
      LoggedOnceFired(ts, goalId, holds, now, accepts, earned, logs, k);
    } else {
      var r := UnlockRun(ts, goalId, holds, now, accepts, earned, logs);
      assert r.logs[|logs|..] == [];
    }
  }

  /** The step of NonRepeatableLoggedOnce where the head template writes its record. */
  lemma {:induction false} LoggedOnceFired(ts: seq<Template>, goalId: int, holds: string -> bool, now: DateTime,
                                          accepts: AchievementLog -> bool,
                                          earned: set<(int, int)>, logs: seq<AchievementLog>, k: int)
    requires 0 <= k < |ts| && !ts[k].isRepeatable
    requires forall i, j :: 0 <= i < j < |ts| ==> ts[i].achievementId != ts[j].achievementId
    requires !Skipped(ts[0], goalId, earned) && holds(ts[0].unlockCondition)
    requires accepts(AchievementLog(goalId, ts[0].achievementId, now))
    ensures var r := UnlockRun(ts, goalId, holds, now, accepts, earned, logs);
      var p := (goalId, ts[k].achievementId);
      |logs| <= |r.logs|
      && Count(r.logs[|logs|..], p) <= 1
      && (p in earned ==> Count(r.logs[|logs|..], p) == 0)
    decreases |ts|, 0
  {
    var t := ts[0];
    var r := UnlockRun(ts, goalId, holds, now, accepts, earned, logs);
    var p := (goalId, ts[k].achievementId);
    var log := AchievementLog(goalId, t.achievementId, now);
    var e' := earned + {(goalId, t.achievementId)};
    var l' := logs + [log];
    assert r == UnlockRun(ts[1..], goalId, holds, now, accepts, e', l');
    UnlockRunPrefix(ts[1..], goalId, holds, now, accepts, e', l');
    assert r.logs[|logs|..] == [log] + r.logs[|l'|..];
    CountConcat([log], r.logs[|l'|..], p);
    TailDistinct(ts);
    if k == 0 {
      NotLoggedElsewhere(ts[1..], goalId, holds, now, accepts, e', l', ts[0].achievementId);
    } else {
      assert ts[1..][k - 1] == ts[k];
      NonRepeatableLoggedOnce(ts[1..], goalId, holds, now, accepts, e', l', k - 1);
    }
  }

  /** A pass over templates none of which carries the ID id writes no record for it. */
  lemma {:induction false} NotLoggedElsewhere(ts: seq<Template>, goalId: int, holds: string -> bool, now: DateTime,
                                             accepts: AchievementLog -> bool,
                                             earned: set<(int, int)>, logs: seq<AchievementLog>, id: int)
    requires forall i :: 0 <= i < |ts| ==> ts[i].achievementId != id
    ensures var r := UnlockRun(ts, goalId, holds, now, accepts, earned, logs);
      |logs| <= |r.logs| && Count(r.logs[|logs|..], (goalId, id)) == 0
  {
    var r := UnlockRun(ts, goalId, holds, now, accepts, earned, logs);
    UnlockRunPrefix(ts, goalId, holds, now, accepts, earned, logs);
    if |ts| > 0 {
      var t := ts[0];
      assert forall i :: 0 <= i < |ts[1..]| ==> ts[1..][i] == ts[i + 1];
      if Skipped(t, goalId, earned) || !holds(t.unlockCondition) {
        NotLoggedElsewhere(ts[1..], goalId, holds, now, accepts, earned, logs, id);
      } else {
        var log := AchievementLog(goalId, t.achievementId, now);
        if accepts(log) {
          var e' := earned + {(goalId, t.achievementId)};
          var l' := logs + [log];
          UnlockRunPrefix(ts[1..], goalId, holds, now, accepts, e', l');
          NotLoggedElsewhere(ts[1..], goalId, holds, now, accepts, e', l', id);
          assert r.logs[|logs|..] == [log] + r.logs[|l'|..];
          CountConcat([log], r.logs[|l'|..], (goalId, id));
        } else {
          assert r.logs[|logs|..] == [];
        }
      }
    } else {
      assert r.logs[|logs|..] == [];
    }
  }

  /**
   * A repeatable template whose condition holds writes a new record on every pass that
   * does not fail, whether or not the goal has earned it before.
   */
  lemma {:induction false} RepeatableLogsEveryPass(ts: seq<Template>, goalId: int, holds: string -> bool, now: DateTime,
                                                  accepts: AchievementLog -> bool,
                                                  earned: set<(int, int)>, logs: seq<AchievementLog>, k: int)
    requires 0 <= k < |ts| && ts[k].isRepeatable
    requires holds(ts[k].unlockCondition)
    requires !UnlockRun(ts, goalId, holds, now, accepts, earned, logs).failed
    ensures var r := UnlockRun(ts, goalId, holds, now, accepts, earned, logs);
      |logs| <= |r.logs| && AchievementLog(goalId, ts[k].achievementId, now) in r.logs[|logs|..]
  {
    var r := UnlockRun(ts, goalId, holds, now, accepts, earned, logs);
    UnlockRunPrefix(ts, goalId, holds, now, accepts, earned, logs);
    var t := ts[0];
    if Skipped(t, goalId, earned) || !holds(t.unlockCondition) {
      assert k != 0;
      assert ts[1..][k - 1] == ts[k];
      RepeatableLogsEveryPass(ts[1..], goalId, holds, now, accepts, earned, logs, k - 1);
    } else {
      var log := AchievementLog(goalId, t.achievementId, now);
      var e' := earned + {(goalId, t.achievementId)};
      var l' := logs + [log];
      UnlockRunPrefix(ts[1..], goalId, holds, now, accepts, e', l');
      assert r.logs[|logs|..] == [log] + r.logs[|l'|..];
      if k > 0 {
        assert ts[1..][k - 1] == ts[k];
        RepeatableLogsEveryPass(ts[1..], goalId, holds, now, accepts, e', l', k - 1);
      }
    }
  }

  /** A non-repeatable template whose condition holds is earned after any pass that does not fail. */
  lemma {:induction false} HoldingIsEarned(ts: seq<Template>, goalId: int, holds: string -> bool, now: DateTime,
                                          accepts: AchievementLog -> bool,
                                          earned: set<(int, int)>, logs: seq<AchievementLog>, k: int)
    requires 0 <= k < |ts| && !ts[k].isRepeatable
    requires holds(ts[k].unlockCondition)
    requires !UnlockRun(ts, goalId, holds, now, accepts, earned, logs).failed
    ensures (goalId, ts[k].achievementId) in UnlockRun(ts, goalId, holds, now, accepts, earned, logs).earned
  {
    var t := ts[0];
    var passed := Skipped(t, goalId, earned) || !holds(t.unlockCondition);
    var e' := if passed then earned else earned + {(goalId, t.achievementId)};
    var l' := if passed then logs else logs + [AchievementLog(goalId, t.achievementId, now)];
    assert UnlockRun(ts, goalId, holds, now, accepts, earned, logs) == UnlockRun(ts[1..], goalId, holds, now, accepts, e', l');
    if k == 0 {
      assert (goalId, ts[0].achievementId) in e';
      UnlockRunOnlyThisGoal(ts[1..], goalId, holds, now, accepts, e', l');
    } else {
      assert ts[1..][k - 1] == ts[k];
      HoldingIsEarned(ts[1..], goalId, holds, now, accepts, e', l', k - 1);
    }
  }

  /**
   * Over a catalog with distinct IDs, the first pass that does not fail on a goal that has
   * not earned a non-repeatable template whose condition holds writes exactly one record for it.
   */
  lemma NonRepeatableLoggedExactlyOnce(ts: seq<Template>, goalId: int, holds: string -> bool, now: DateTime,
                                       accepts: AchievementLog -> bool,
                                       earned: set<(int, int)>, logs: seq<AchievementLog>, k: int)
    requires 0 <= k < |ts| && !ts[k].isRepeatable && holds(ts[k].unlockCondition)
    requires forall i, j :: 0 <= i < j < |ts| ==> ts[i].achievementId != ts[j].achievementId
    requires (goalId, ts[k].achievementId) !in earned
    requires !UnlockRun(ts, goalId, holds, now, accepts, earned, logs).failed
    ensures var r := UnlockRun(ts, goalId, holds, now, accepts, earned, logs);
      |logs| <= |r.logs| && Count(r.logs[|logs|..], (goalId, ts[k].achievementId)) == 1
  {
    HoldingIsEarned(ts, goalId, holds, now, accepts, earned, logs, k);
    UnlockRunEarned(ts, goalId, holds, now, accepts, earned, logs);
    NonRepeatableLoggedOnce(ts, goalId, holds, now, accepts, earned, logs, k);
  }

  // ---------------------------------------------------------------- GetAchievementStatus

  /** The IDs that some earned pair carries, for any goal. */
  function EarnedIds(earned: set<(int, int)>): (ids: set<int>)
    ensures forall id :: id in ids <==> exists p :: p in earned && p.1 == id
  {
    set p | p in earned :: p.1
  }

  /** The templates of ts, in catalog order, whose ID is earned (unlocked) or not (locked). */
  function Select(ts: seq<Template>, ids: set<int>, unlocked: bool): (r: seq<Template>)
    ensures |r| <= |ts|
  {
    if |ts| == 0 then []
    else
      var rest := Select(ts[..|ts| - 1], ids, unlocked);
      var t := ts[|ts| - 1];
      if (t.achievementId in ids) == unlocked then rest + [t] else rest
  }

  /** A template is listed exactly when it is in the catalog and its earned state is the one asked for. */
  lemma {:induction false} SelectMembers(ts: seq<Template>, ids: set<int>, unlocked: bool)
    ensures forall t :: t in Select(ts, ids, unlocked) <==> t in ts && (t.achievementId in ids) == unlocked
  {
    if |ts| > 0 {
      var p := ts[..|ts| - 1];
      SelectMembers(p, ids, unlocked);
      assert ts == p + [ts[|ts| - 1]];
      assert forall x :: x in ts <==> x in p || x == ts[|ts| - 1];
    }
  }

  /** Every template lands in exactly one of the two lists. */
  lemma {:induction false} SelectPartitions(ts: seq<Template>, ids: set<int>)
    ensures multiset(Select(ts, ids, true)) + multiset(Select(ts, ids, false)) == multiset(ts)
  {
    if |ts| > 0 {
      var p := ts[..|ts| - 1];
      var t := ts[|ts| - 1];
      SelectPartitions(p, ids);
      assert ts == p + [t];
      assert multiset(ts) == multiset(p) + multiset{t};
      var u, l := Select(p, ids, true), Select(p, ids, false);
      if t.achievementId in ids {
        assert Select(ts, ids, true) == u + [t] && Select(ts, ids, false) == l;
        assert multiset(u + [t]) == multiset(u) + multiset{t};
      } else {
        assert Select(ts, ids, true) == u && Select(ts, ids, false) == l + [t];
        assert multiset(l + [t]) == multiset(l) + multiset{t};
      }
    }
  }

  // ---------------------------------------------------------------- seeding

  function Starter(name: string, description: string, condition: string): Template {
    Template(0, name, description, condition, false)
  }

  /** The eight starter templates of SeedInitialTemplates, in the order they are inserted. */
  const OffTheStartingBlocks := Starter("Off the Starting Blocks",
    "Log your very first progress entry for any goal.", "ProgressEntries.Count == 1")
  const GettingConsistent := Starter("Getting Consistent",
    "Achieve a 3-day streak on a Time-Based Goal.", "CurrentStreak >= 3")
  const WeeklyWarrior := Starter("Weekly Warrior",
    "Achieve a 7-day streak on a Time-Based Goal.", "CurrentStreak >= 7")
  const HabitMaster := Starter("Habit Master",
    "Achieve a 30-day streak on a Time-Based Goal.", "CurrentStreak >= 30")
  const OneDown := Starter("One Down!",
    "Complete your first goal.", "GlobalCompletedGoalCount == 1")
  const FiveStarFinisher := Starter("Five-Star Finisher",
    "Complete 5 goals.", "GlobalCompletedGoalCount >= 5")
  const GoalGetter := Starter("Goal Getter",
    "Complete 10 goals.", "GlobalCompletedGoalCount >= 10")
  const GoalHoarder := Starter("Goal Hoarder",
    "Complete 20 goals.", "GlobalCompletedGoalCount >= 20")

  const Starters: seq<Template> := [OffTheStartingBlocks, GettingConsistent, WeeklyWarrior, HabitMaster,
                                     OneDown, FiveStarFinisher, GoalGetter, GoalHoarder]

  /** templates.Any(t => t.Name == name). */
  predicate HasName(ts: seq<Template>, name: string) {
    exists i :: 0 <= i < |ts| && ts[i].name == name
  }

  /**
   * The templates a seeding run inserts, given the snapshot of the store it read first:
   * each template of ts whose name the snapshot lacks, in order, with the IDs the store
   * hands out from id on.
   */
  function Seeded(snapshot: seq<Template>, ts: seq<Template>, id: int): (r: seq<Template>)
    ensures |r| <= |ts|
  {
    if |ts| == 0 then []
    else
      var rest := Seeded(snapshot, ts[1..], if HasName(snapshot, ts[0].name) then id else id + 1);
      if HasName(snapshot, ts[0].name) then rest else [ts[0].(achievementId := id)] + rest
  }

  /**
   * What a seeding run inserts: templates the snapshot lacks, numbered consecutively from
   * id, and every template of ts whose name the snapshot lacks is among them.
   */
  lemma {:induction false} SeededShape(snapshot: seq<Template>, ts: seq<Template>, id: int)
    ensures var r := Seeded(snapshot, ts, id);
      (forall i :: 0 <= i < |r| ==> r[i].achievementId == id + i && !HasName(snapshot, r[i].name))
      && (forall k :: 0 <= k < |ts| && !HasName(snapshot, ts[k].name) ==> HasName(r, ts[k].name))
  {
    if |ts| > 0 {
      var id' := if HasName(snapshot, ts[0].name) then id else id + 1;
      var rest := Seeded(snapshot, ts[1..], id');
      var r := Seeded(snapshot, ts, id);
      SeededShape(snapshot, ts[1..], id');
      assert forall k :: 1 <= k < |ts| ==> ts[k] == ts[1..][k - 1];
      if !HasName(snapshot, ts[0].name) {
        assert r == [ts[0].(achievementId := id)] + rest;
        forall i | 0 <= i < |r| ensures r[i].achievementId == id + i && !HasName(snapshot, r[i].name) {
          if i > 0 { assert r[i] == rest[i - 1]; }
        }
        forall k | 1 <= k < |ts| && HasName(rest, ts[k].name) ensures HasName(r, ts[k].name) {
          var j :| 0 <= j < |rest| && rest[j].name == ts[k].name;
          assert r[j + 1] == rest[j];
        }
        assert r[0].name == ts[0].name;
      }
    }
  }

  /** The positions k, k + 1, ... of ts whose template name the snapshot lacks, in increasing order. */
  function AbsentFrom(snapshot: seq<Template>, ts: seq<Template>, k: nat): seq<nat>
    decreases |ts| - k
  {
    if k >= |ts| then []
    else if HasName(snapshot, ts[k].name) then AbsentFrom(snapshot, ts, k + 1)
    else [k] + AbsentFrom(snapshot, ts, k + 1)
  }

  /**
   * r holds the templates of ts at the positions ks, in order, renumbered from id, and ks
   * are exactly the positions from k on whose name the snapshot lacks.
   */
  ghost predicate Picks(snapshot: seq<Template>, ts: seq<Template>, k: nat, id: int, r: seq<Template>, ks: seq<nat>) {
    |r| == |ks|
    && (forall i :: 0 <= i < |ks| ==> k <= ks[i] < |ts| && r[i] == ts[ks[i]].(achievementId := id + i))
    && (forall i, j :: 0 <= i < j < |ks| ==> ks[i] < ks[j])
    && (forall j :: k <= j < |ts| ==> (j in ks <==> !HasName(snapshot, ts[j].name)))
  }

  lemma PicksTake(snapshot: seq<Template>, ts: seq<Template>, k: nat, id: int, rest: seq<Template>, ks: seq<nat>)
    requires k < |ts| && !HasName(snapshot, ts[k].name)
    requires Picks(snapshot, ts, k + 1, id + 1, rest, ks)
    ensures Picks(snapshot, ts, k, id, [ts[k].(achievementId := id)] + rest, [k] + ks)
  {
    var r, ks' := [ts[k].(achievementId := id)] + rest, [k] + ks;
    forall i | 0 <= i < |ks'| ensures k <= ks'[i] < |ts| && r[i] == ts[ks'[i]].(achievementId := id + i) {
      if i > 0 { assert r[i] == rest[i - 1] && ks'[i] == ks[i - 1]; }
    }
    forall i, j | 0 <= i < j < |ks'| ensures ks'[i] < ks'[j] {
      assert ks'[j] == ks[j - 1];
      if i > 0 { assert ks'[i] == ks[i - 1]; }
    }
  }

  lemma PicksSkip(snapshot: seq<Template>, ts: seq<Template>, k: nat, id: int, rest: seq<Template>, ks: seq<nat>)
    requires k < |ts| && HasName(snapshot, ts[k].name)
    requires Picks(snapshot, ts, k + 1, id, rest, ks)
    ensures Picks(snapshot, ts, k, id, rest, ks)
  {
    assert k !in ks;
  }

  /** Seeding from position k on inserts the templates at the absent positions, in order, renumbered. */
  lemma {:induction false} SeededPicksFrom(snapshot: seq<Template>, ts: seq<Template>, k: nat, id: int)
    requires k <= |ts|
    ensures Picks(snapshot, ts, k, id, Seeded(snapshot, ts[k..], id), AbsentFrom(snapshot, ts, k))
    decreases |ts| - k
  {
    if k < |ts| {
      assert ts[k..][0] == ts[k] && ts[k..][1..] == ts[k + 1..];
      if HasName(snapshot, ts[k].name) {
        SeededPicksFrom(snapshot, ts, k + 1, id);
        PicksSkip(snapshot, ts, k, id, Seeded(snapshot, ts[k + 1..], id), AbsentFrom(snapshot, ts, k + 1));
      } else {
        SeededPicksFrom(snapshot, ts, k + 1, id + 1);
        PicksTake(snapshot, ts, k, id, Seeded(snapshot, ts[k + 1..], id + 1), AbsentFrom(snapshot, ts, k + 1));
      }
    }
  }

  /**
   * A seeding run inserts exactly the templates of ts whose name the snapshot lacks, in
   * the order of ts, each unchanged except that the i-th inserted one gets the ID id + i.
   */
  lemma SeededPicks(snapshot: seq<Template>, ts: seq<Template>, id: int)
    ensures var r, ks := Seeded(snapshot, ts, id), AbsentFrom(snapshot, ts, 0);
      |r| == |ks|
      && (forall i :: 0 <= i < |ks| ==> ks[i] < |ts| && r[i] == ts[ks[i]].(achievementId := id + i))
      && (forall i, j :: 0 <= i < j < |ks| ==> ks[i] < ks[j])
      && (forall j :: 0 <= j < |ts| ==> (j in ks <==> !HasName(snapshot, ts[j].name)))
  {
    assert ts[0..] == ts;
    SeededPicksFrom(snapshot, ts, 0, id);
  }

  lemma HasNameConcat(a: seq<Template>, b: seq<Template>, name: string)
    ensures HasName(a + b, name) <==> HasName(a, name) || HasName(b, name)
  {
    if HasName(a + b, name) {
      var i :| 0 <= i < |a + b| && (a + b)[i].name == name;
      if i >= |a| {
        assert b[i - |a|].name == name;
      }
    }
    if HasName(b, name) {
      var i :| 0 <= i < |b| && b[i].name == name;
      assert (a + b)[|a| + i].name == name;
    }
    if HasName(a, name) {
      var i :| 0 <= i < |a| && a[i].name == name;
      assert (a + b)[i].name == name;
    }
  }

  /** Seeding into a store that already holds every name of ts inserts nothing. */
  lemma {:induction false} SeededNothing(snapshot: seq<Template>, ts: seq<Template>, id: int)
    requires forall k :: 0 <= k < |ts| ==> HasName(snapshot, ts[k].name)
    ensures Seeded(snapshot, ts, id) == []
  {
    if |ts| > 0 {
      assert forall k :: 0 <= k < |ts[1..]| ==> ts[1..][k] == ts[k + 1];
      SeededNothing(snapshot, ts[1..], id);
    }
  }

  /** A second seeding run over a store the first one seeded inserts nothing. */
  lemma SeedTwice(snapshot: seq<Template>, id: int, id': int)
    ensures Seeded(snapshot + Seeded(snapshot, Starters, id), Starters, id') == []
  {
    var after := snapshot + Seeded(snapshot, Starters, id);
    SeededShape(snapshot, Starters, id);
    forall k | 0 <= k < |Starters| ensures HasName(after, Starters[k].name) {
      HasNameConcat(snapshot, Seeded(snapshot, Starters, id), Starters[k].name);
    }
    SeededNothing(after, Starters, id');
  }

  /** "Off the Starting Blocks" is earned by the goal's first ledger entry. */
  lemma FirstEntryStarter(g: GoalView, completedCount: int)
    ensures EvaluateCondition(OffTheStartingBlocks.unlockCondition, g, completedCount) <==> |g.progressEntries| == 1
  {
    FirstEntryCondition(g, completedCount);
  }

  /** "Getting Consistent" is earned by a time-based goal with a streak of 3 or more. */
  lemma ConsistentStarter(g: GoalView, completedCount: int)
    ensures EvaluateCondition(GettingConsistent.unlockCondition, g, completedCount)
        <==> g.details.TimeBased? && g.details.currentStreak >= 3
  {
    var text := Format("CurrentStreak", ">=", IntToString(3));
    assert IntToString(3) == "3";
    assert text == GettingConsistent.unlockCondition;
    StreakCondition(g, 3, completedCount);
  }

  /** "One Down!" is earned by a Complete goal only while exactly one goal is complete. */
  lemma OneDownStarter(g: GoalView, completedCount: int)
    ensures EvaluateCondition(OneDown.unlockCondition, g, completedCount)
        <==> g.status == Complete && completedCount == 1
  {
    var text := Format(GlobalSelector, "==", IntToString(1));
    assert IntToString(1) == "1";
    assert text == OneDown.unlockCondition;
    GlobalCountCondition(g, "==", 1, completedCount);
  }

  /** "Goal Hoarder" is earned by a Complete goal once 20 or more goals are complete. */
  lemma HoarderStarter(g: GoalView, completedCount: int)
    ensures EvaluateCondition(GoalHoarder.unlockCondition, g, completedCount)
        <==> g.status == Complete && completedCount >= 20
  {
    var text := Format(GlobalSelector, ">=", IntToString(20));
    assert IntToString(20) == "20";
    assert text == GoalHoarder.unlockCondition;
    GlobalCountCondition(g, ">=", 20, completedCount);
  }

  // ---------------------------------------------------------------- the engine

  /** The IDs in ts are positive, below next, and pairwise distinct. */
  predicate FreshIds(ts: seq<Template>, next: int) {
    (forall i :: 0 <= i < |ts| ==> 1 <= ts[i].achievementId < next)
    && (forall i, j :: 0 <= i < j < |ts| ==> ts[i].achievementId != ts[j].achievementId)
  }

  class Engine {
    var initialized: bool
    var templates: seq<Template>            // _templatesCache
    var earned: set<(int, int)>             // _earnedAchievementsCache
    var storedTemplates: seq<Template>      // the AchievementTemplate table
    var logs: seq<AchievementLog>           // the achievement log table
    var nextTemplateId: int                 // the next AUTOINCREMENT AchievementID

    /**
     * The caches mirror the store once loaded, and are absent before; the store's
     * template IDs are distinct and below the next one it will hand out.
     */
    ghost predicate Valid()
      reads this
    {
      nextTemplateId >= 1
      && FreshIds(storedTemplates, nextTemplateId)
      && (initialized ==> templates == storedTemplates && earned == Pairs(logs))
      && (!initialized ==> templates == [] && earned == {})
    }

    /** The engine before Initialize, over a store that already holds templates and logs. */
    constructor (stored: seq<Template>, storedLogs: seq<AchievementLog>, nextId: int)
      requires nextId >= 1 && FreshIds(stored, nextId)
      ensures Valid() && !initialized
      ensures storedTemplates == stored && logs == storedLogs && nextTemplateId == nextId
    {
      initialized := false;
      templates := [];
      earned := {};
      storedTemplates := stored;
      logs := storedLogs;
      nextTemplateId := nextId;
    }

    /** Initialize: load the template catalog and the earned pairs from the store. */
    method Initialize()
      requires Valid()
      modifies this
      ensures Valid() && initialized
      ensures templates == storedTemplates && earned == Pairs(logs)
      ensures storedTemplates == old(storedTemplates) && logs == old(logs)
      ensures nextTemplateId == old(nextTemplateId)
    {
      templates := storedTemplates;
      LoadEarnedAchievementsCache();
      initialized := true;
    }

    /** LoadEarnedAchievementsCache: one pair per log record. */
    method LoadEarnedAchievementsCache()
      modifies this
      ensures earned == Pairs(logs)
      ensures initialized == old(initialized) && templates == old(templates)
      ensures storedTemplates == old(storedTemplates) && logs == old(logs)
      ensures nextTemplateId == old(nextTemplateId)
    {
      earned := {};
      var i := 0;
      while i < |logs|
        invariant 0 <= i <= |logs|
        invariant earned == Pairs(logs[..i])
        invariant initialized == old(initialized) && templates == old(templates)
        invariant storedTemplates == old(storedTemplates) && logs == old(logs)
        invariant nextTemplateId == old(nextTemplateId)
      {
        PairsAppend(logs[..i], logs[i]);
        assert logs[..i + 1] == logs[..i] + [logs[i]];
        earned := earned + {(logs[i].goalId, logs[i].achievementId)};
        i := i + 1;
      }
      assert logs[..i] == logs;
    }

    /**
     * CheckAndUnlock: a goal without a store ID is ignored; otherwise every template is
     * passed over as UnlockRun describes, and a refused write stops the pass with an error.
     */
    method CheckAndUnlock(g: GoalView, completedCount: int, now: DateTime, accepts: AchievementLog -> bool)
      returns (r: Result<(), EngineError>)
      requires Valid()
      modifies this
      ensures Valid()
      ensures initialized == old(initialized) && templates == old(templates)
      ensures storedTemplates == old(storedTemplates) && nextTemplateId == old(nextTemplateId)
      ensures g.goalId <= 0 ==> r.Ok? && earned == old(earned) && logs == old(logs)
      ensures g.goalId > 0 && !initialized ==> r == Err(NotInitialized) && earned == old(earned) && logs == old(logs)
      ensures g.goalId > 0 && initialized ==>
        var run := UnlockRun(templates, g.goalId, Verdict(g, completedCount), now, accepts, old(earned), old(logs));
        earned == run.earned && logs == run.logs && (r == Err(StoreWriteFailed) <==> run.failed) && (r.Ok? <==> !run.failed)
    {
      if g.goalId <= 0 {
        return Ok(());
      }
      if !initialized {
        return Err(NotInitialized);
      }
      ghost var holds := Verdict(g, completedCount);
      ghost var run := UnlockRun(templates, g.goalId, holds, now, accepts, earned, logs);
      var i := 0;
      while i < |templates|
        invariant 0 <= i <= |templates|
        invariant UnlockRun(templates[i..], g.goalId, holds, now, accepts, earned, logs) == run
        invariant earned == Pairs(logs)
        invariant initialized && templates == old(templates) && storedTemplates == old(storedTemplates)
        invariant nextTemplateId == old(nextTemplateId)
      {
        var t := templates[i];
        assert templates[i..][1..] == templates[i + 1..];
        if !t.isRepeatable && (g.goalId, t.achievementId) in earned {
          i := i + 1;
          continue;
        }
        if EvaluateCondition(t.unlockCondition, g, completedCount) {
          assert holds(t.unlockCondition);
          var log := AchievementLog(g.goalId, t.achievementId, now);
          if !accepts(log) {
            return Err(StoreWriteFailed);
          }
          PairsAppend(logs, log);
          logs := logs + [log];
          earned := earned + {(g.goalId, t.achievementId)};
        }
        i := i + 1;
      }
      return Ok(());
    }

    /**
     * InsertAchievementTemplate: fails before Initialize; otherwise the store assigns the
     * next ID and the template, with that ID, goes at the end of the store and the catalog.
     */
    method InsertAchievementTemplate(t: Template) returns (r: Result<int, EngineError>)
      requires Valid()
      modifies this
      ensures Valid()
      ensures initialized == old(initialized) && earned == old(earned) && logs == old(logs)
      ensures !initialized ==>
        r == Err(NotInitialized) && storedTemplates == old(storedTemplates)
        && templates == old(templates) && nextTemplateId == old(nextTemplateId)
      ensures initialized ==>
        r == Ok(old(nextTemplateId))
        && storedTemplates == old(storedTemplates) + [t.(achievementId := old(nextTemplateId))]
        && templates == old(templates) + [t.(achievementId := old(nextTemplateId))]
        && nextTemplateId == old(nextTemplateId) + 1
    {
      if !initialized {
        return Err(NotInitialized);
      }
      var id := nextTemplateId;
      var saved := t.(achievementId := id);
      storedTemplates := storedTemplates + [saved];
      nextTemplateId := nextTemplateId + 1;
      templates := templates + [saved];
      return Ok(id);
    }

    /**
     * GetAchievementStatus: the catalog split, in order, into the templates whose ID some
     * earned pair carries and the rest. It changes nothing.
     */
    method GetAchievementStatus() returns (r: Result<(seq<Template>, seq<Template>), EngineError>)
      requires Valid()
      ensures !initialized ==> r == Err(NotInitialized)
      ensures initialized ==>
        r.Ok?
        && r.value.0 == Select(templates, EarnedIds(earned), true)
        && r.value.1 == Select(templates, EarnedIds(earned), false)
      ensures initialized ==>
        (forall t :: t in r.value.0 <==>
           t in templates && exists p :: p in earned && p.1 == t.achievementId)
        && (forall t :: t in r.value.1 <==>
           t in templates && !exists p :: p in earned && p.1 == t.achievementId)
        && multiset(r.value.0) + multiset(r.value.1) == multiset(templates)
    {
      if !initialized {
        return Err(NotInitialized);
      }
      var unlocked: seq<Template> := [];
      var locked: seq<Template> := [];
      var earnedIds := EarnedIds(earned);
      var i := 0;
      while i < |templates|
        invariant 0 <= i <= |templates|
        invariant unlocked == Select(templates[..i], earnedIds, true)
        invariant locked == Select(templates[..i], earnedIds, false)
      {
        assert templates[..i + 1][..i] == templates[..i];
        if templates[i].achievementId in earnedIds {
          unlocked := unlocked + [templates[i]];
        } else {
          locked := locked + [templates[i]];
        }
        i := i + 1;
      }
      assert templates[..i] == templates;
      SelectMembers(templates, earnedIds, true);
      SelectMembers(templates, earnedIds, false);
      SelectPartitions(templates, earnedIds);
      return Ok((unlocked, locked));
    }

    /**
     * The account of a seeding run after its first k blocks: the store and the catalog hold
     * the snapshot followed by what seeding the first k starters inserts.
     */
    ghost predicate SeededUpTo(snapshot: seq<Template>, id0: int, k: int)
      reads this
    {
      0 <= k <= |Starters|
      && storedTemplates == snapshot + Seeded(snapshot, Starters[..k], id0)
      && templates == storedTemplates
      && nextTemplateId == id0 + |Seeded(snapshot, Starters[..k], id0)|
    }

    /** One block of SeedInitialTemplates: insert t unless the snapshot holds its name. */
    method InsertIfAbsent(snapshot: seq<Template>, t: Template)
      requires Valid() && initialized
      modifies this
      ensures Valid() && initialized
      ensures earned == old(earned) && logs == old(logs)
      ensures var added := if HasName(snapshot, t.name) then [] else [t.(achievementId := old(nextTemplateId))];
        storedTemplates == old(storedTemplates) + added
        && templates == old(templates) + added
        && nextTemplateId == old(nextTemplateId) + |added|
    {
      if !HasName(snapshot, t.name) {
        var _ := InsertAchievementTemplate(t);
      }
    }

    /** The k-th block of SeedInitialTemplates, which advances the account by one starter. */
    method SeedBlock(snapshot: seq<Template>, ghost id0: int, k: int)
      requires Valid() && initialized && 0 <= k < |Starters|
      requires SeededUpTo(snapshot, id0, k)
      modifies this
      ensures Valid() && initialized && earned == old(earned) && logs == old(logs)
      ensures SeededUpTo(snapshot, id0, k + 1)
    {
      ghost var stored, next := storedTemplates, nextTemplateId;
      InsertIfAbsent(snapshot, Starters[k]);
      SeedAdvance(snapshot, k, id0, stored, next, storedTemplates, nextTemplateId);
    }

    /**
     * SeedInitialTemplates: read the stored templates once, then insert each starter
     * template whose name that snapshot lacks.
     */
    method SeedInitialTemplates() returns (r: Result<(), EngineError>)
      requires Valid()
      modifies this
      ensures Valid()
      ensures initialized == old(initialized) && earned == old(earned) && logs == old(logs)
      ensures !initialized ==>
        r == Err(NotInitialized) && storedTemplates == old(storedTemplates)
        && templates == old(templates) && nextTemplateId == old(nextTemplateId)
      ensures initialized ==>
        var added := Seeded(old(storedTemplates), Starters, old(nextTemplateId));
        r.Ok?
        && storedTemplates == old(storedTemplates) + added
        && templates == old(templates) + added
        && nextTemplateId == old(nextTemplateId) + |added|
    {
      if !initialized {
        return Err(NotInitialized);
      }
      var snapshot := storedTemplates;
      ghost var id0 := nextTemplateId;
      assert snapshot + Seeded(snapshot, Starters[..0], id0) == snapshot;
      SeedBlock(snapshot, id0, 0);
      SeedBlock(snapshot, id0, 1);
      SeedBlock(snapshot, id0, 2);
      SeedBlock(snapshot, id0, 3);
      SeedBlock(snapshot, id0, 4);
      SeedBlock(snapshot, id0, 5);
      SeedBlock(snapshot, id0, 6);
      SeedBlock(snapshot, id0, 7);
      SeedDone(snapshot, id0);
      return Ok(());
    }
  }

  lemma SeedDone(snapshot: seq<Template>, id0: int)
    ensures Seeded(snapshot, Starters[..|Starters|], id0) == Seeded(snapshot, Starters, id0)
  {
    assert Starters[..|Starters|] == Starters;
  }

  /** One block of the seeding run carries the running account of what it has inserted. */
  lemma SeedAdvance(snapshot: seq<Template>, k: int, id0: int,
                    before: seq<Template>, nextBefore: int, after: seq<Template>, nextAfter: int)
    requires 0 <= k < |Starters|
    requires before == snapshot + Seeded(snapshot, Starters[..k], id0)
    requires nextBefore == id0 + |Seeded(snapshot, Starters[..k], id0)|
    requires var added := if HasName(snapshot, Starters[k].name) then [] else [Starters[k].(achievementId := nextBefore)];
      after == before + added && nextAfter == nextBefore + |added|
    ensures after == snapshot + Seeded(snapshot, Starters[..k + 1], id0)
    ensures nextAfter == id0 + |Seeded(snapshot, Starters[..k + 1], id0)|
  {
    SeedStep(snapshot, Starters, k, id0);
  }

  /** Seeding the first k + 1 templates adds to seeding the first k at most the k-th, with the next ID. */
  lemma SeedStep(snapshot: seq<Template>, ts: seq<Template>, k: int, id: int)
    requires 0 <= k < |ts|
    ensures var before := Seeded(snapshot, ts[..k], id);
      Seeded(snapshot, ts[..k + 1], id) == before
        + (if HasName(snapshot, ts[k].name) then [] else [ts[k].(achievementId := id + |before|)])
  {
    SeededSnoc(snapshot, ts[..k], ts[k], id);
    assert ts[..k] + [ts[k]] == ts[..k + 1];
  }

  lemma {:induction false} SeededSnoc(snapshot: seq<Template>, ts: seq<Template>, t: Template, id: int)
    ensures var before := Seeded(snapshot, ts, id);
      Seeded(snapshot, ts + [t], id) == before
        + (if HasName(snapshot, t.name) then [] else [t.(achievementId := id + |before|)])
  {
    if |ts| == 0 {
      assert ts + [t] == [t];
    } else {
      assert (ts + [t])[1..] == ts[1..] + [t];
      var id' := if HasName(snapshot, ts[0].name) then id else id + 1;
      SeededSnoc(snapshot, ts[1..], t, id');
    }
  }
}
