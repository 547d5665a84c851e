/**
 * The achievement condition evaluator: a three-token expression
 * "<selector> <operator> <literal>" evaluated against a goal and the number of
 * completed goals. Property lookup by reflection is replaced by a closed table of
 * the goal's public properties and the kind of value each holds.
 */
module Conditions {
  import opened Outcomes
  import opened Text
  import opened Records

  /** What reflection finds under a property name, as far as the evaluator can tell. */
  datatype PropertyValue =
    | ListOf(count: nat)     // a property whose type is an IList
    | DecimalOf(d: real)     // a decimal
    | IntOf(i: int)          // an int
    | OtherKind              // found, but of another kind: string, DateTime or an enum
    | Missing                // no such public property on the runtime type

  const GlobalSelector := "GlobalCompletedGoalCount"
  const CountSuffix := ".Count"

  /** The public properties of the goal's runtime type (Goal.cs and its two subclasses). */
  function Property(g: GoalView, name: string): PropertyValue {
    if name == "GoalID" then IntOf(g.goalId)
    else if name == "ProgressEntries" then ListOf(|g.progressEntries|)
    else if name == "Title" || name == "Description" || name == "StartDate"
         || name == "EndDate" || name == "Status" then OtherKind
    else match g.details
      case Quantitative(target, current, _) =>
        if name == "TargetValue" then DecimalOf(target)
        else if name == "CurrentValue" then DecimalOf(current)
        else if name == "UnitOfMeasure" then OtherKind
        else Missing
      case TimeBased(_, streak) =>
        if name == "CurrentStreak" then IntOf(streak)
        else if name == "RequiredFrequency" then OtherKind
        else Missing
  }

  /** A condition split into its three tokens. */
  datatype Condition = Condition(selector: string, op: string, literal: string)

  /** Split on ' ' and accept exactly three pieces. */
  function ParseCondition(text: string): (r: Option<Condition>)
    ensures r.Some? <==> |Split(text, ' ')| == 3
    ensures r.Some? ==> Join([r.value.selector, r.value.op, r.value.literal], ' ') == text
  {
    var parts := Split(text, ' ');
    JoinSplit(text, ' ');
    if |parts| != 3 then None
    else
      assert parts == [parts[0], parts[1], parts[2]];
      Some(Condition(parts[0], parts[1], parts[2]))
  }

  /** The two supported operators; any other operator compares false. */
  predicate Compare(op: string, x: real, y: real) {
    if op == ">=" then x >= y
    else if op == "==" then x == y
    else false
  }

  /** Compare an int property with an int literal, as int.TryParse reads it. */
  predicate CompareInt(op: string, x: int, literal: string) {
    match ParseInt32(literal)
    case Some(n) => Compare(op, x as real, n as real)
    case None => false
  }

  /** The value of a parsed condition. */
  predicate Holds(c: Condition, g: GoalView, completedCount: int)
  {
    if c.selector == GlobalSelector then
      g.status == Complete && CompareInt(c.op, completedCount, c.literal)
    else if EndsWith(c.selector, CountSuffix) then
      match Property(g, RemoveAll(c.selector, CountSuffix))
      case ListOf(n) => CompareInt(c.op, n, c.literal)
      case _ => false
    else
      match Property(g, c.selector)
      case DecimalOf(v) =>
        (match ParseDecimal(c.literal)
         case Some(t) => Compare(c.op, v, t)
         case None => false)
      case IntOf(v) => CompareInt(c.op, v, c.literal)
      case _ => false
  }

  /**
   * AchievementManager.EvaluateCondition: total, never throws; every malformed
   * condition, unknown operator, unparsable literal or unsupported property is false.
   */
  function EvaluateCondition(text: string, g: GoalView, completedCount: int): (b: bool)
    ensures |Split(text, ' ')| != 3 ==> !b
    ensures b ==> var c := ParseCondition(text).value;
      (c.op == ">=" || c.op == "==")
      && (ParseInt32(c.literal).Some? || ParseDecimal(c.literal).Some?)
      && (c.selector == GlobalSelector ==> g.status == Complete)
      && (c.selector != GlobalSelector && !EndsWith(c.selector, CountSuffix) ==>
            Property(g, c.selector).DecimalOf? || Property(g, c.selector).IntOf?)
  {
    match ParseCondition(text)
    case None => false
    case Some(c) => Holds(c, g, completedCount)
  }

  // ---------------------------------------------------------------- what conditions mean

  /** A condition written out as its three tokens. */
  function Format(selector: string, op: string, literal: string): string {
    selector + " " + op + " " + literal
  }

  lemma ParseFormat(selector: string, op: string, literal: string)
    requires ' ' !in selector && ' ' !in op && ' ' !in literal
    ensures ParseCondition(Format(selector, op, literal)) == Some(Condition(selector, op, literal))
  {
    var parts := [selector, op, literal];
    assert parts[1..] == [op, literal];
    assert parts[1..][1..] == [literal];
    assert Join(parts[1..], ' ') == op + [' '] + literal;
    assert Join(parts, ' ') == selector + [' '] + (op + [' '] + literal);
    assert Join(parts, ' ') == Format(selector, op, literal);
    SplitJoin(parts, ' ');
  }

  lemma PrintedHasNoSpace(n: int)
    ensures ' ' !in IntToString(n)
  {
    var s := IntToString(n);
    var digits := NatToString(if n < 0 then -n else n);
    if n < 0 {
      assert s == "-" + digits;
      assert forall i :: 1 <= i < |s| ==> s[i] == digits[i - 1];
    }
  }

  /**
   * "GlobalCompletedGoalCount <op> n" holds exactly when the goal is Complete and the
   * completed-goal count compares true with n: whatever the count, it is false for a
   * goal that is not Complete.
   */
  lemma GlobalCountCondition(g: GoalView, op: string, n: int, completedCount: int)
    requires ' ' !in op && Int32Min <= n <= Int32Max
    ensures EvaluateCondition(Format(GlobalSelector, op, IntToString(n)), g, completedCount)
        <==> g.status == Complete && Compare(op, completedCount as real, n as real)
  {
    PrintedHasNoSpace(n);
    ParseFormat(GlobalSelector, op, IntToString(n));
    ParseInt32Printed(n);
  }

  /** "<list>.Count <op> n" compares the length of the list property named <list>. */
  lemma CountCondition(g: GoalView, list: string, op: string, n: int, completedCount: int)
    requires ' ' !in list && '.' !in list && ' ' !in op && Int32Min <= n <= Int32Max
    ensures EvaluateCondition(Format(list + CountSuffix, op, IntToString(n)), g, completedCount)
        <==> Property(g, list).ListOf? && Compare(op, Property(g, list).count as real, n as real)
  {
    var selector := list + CountSuffix;
    assert ' ' !in selector by {
      assert forall i :: 0 <= i < |list| ==> selector[i] == list[i];
      assert forall i :: |list| <= i < |selector| ==> selector[i] == CountSuffix[i - |list|];
    }
    assert selector != GlobalSelector by {
      assert selector[|list|] == '.';
      assert '.' !in GlobalSelector;
    }
    assert EndsWith(selector, CountSuffix) by {
      assert selector[|selector| - |CountSuffix|..] == CountSuffix;
    }
    RemoveTrailing(list, CountSuffix);
    PrintedHasNoSpace(n);
    ParseFormat(selector, op, IntToString(n));
    ParseInt32Printed(n);
  }

  /** The first starter achievement's rule holds exactly when the ledger has one entry. */
  lemma FirstEntryCondition(g: GoalView, completedCount: int)
    ensures EvaluateCondition("ProgressEntries.Count == 1", g, completedCount)
        <==> |g.progressEntries| == 1
  {
    assert IntToString(1) == "1";
    assert Format("ProgressEntries" + CountSuffix, "==", IntToString(1)) == "ProgressEntries.Count == 1";
    CountCondition(g, "ProgressEntries", "==", 1, completedCount);
  }

  /**
   * "<selector> <op> <literal>" with a direct selector compares a decimal property with
   * the literal read by decimal.TryParse and an int property with the literal read by
   * int.TryParse; it is false when that parse fails and for every other kind of property.
   */
  lemma DirectCondition(g: GoalView, selector: string, op: string, literal: string, completedCount: int)
    requires ' ' !in selector && ' ' !in op && ' ' !in literal
    requires selector != GlobalSelector && !EndsWith(selector, CountSuffix)
    ensures EvaluateCondition(Format(selector, op, literal), g, completedCount)
        <==> match Property(g, selector)
             case DecimalOf(v) => ParseDecimal(literal).Some? && Compare(op, v, ParseDecimal(literal).value)
             case IntOf(v) => ParseInt32(literal).Some? && Compare(op, v as real, ParseInt32(literal).value as real)
             case _ => false
  {
    ParseFormat(selector, op, literal);
  }

  /** With an int literal printed in decimal, both kinds of property compare with n itself. */
  lemma DirectIntCondition(g: GoalView, selector: string, op: string, n: int, completedCount: int)
    requires ' ' !in selector && ' ' !in op && Int32Min <= n <= Int32Max
    requires selector != GlobalSelector && !EndsWith(selector, CountSuffix)
    ensures EvaluateCondition(Format(selector, op, IntToString(n)), g, completedCount)
        <==> match Property(g, selector)
             case DecimalOf(v) => Compare(op, v, n as real)
             case IntOf(v) => Compare(op, v as real, n as real)
             case _ => false
  {
    PrintedHasNoSpace(n);
    DirectCondition(g, selector, op, IntToString(n), completedCount);
    ParseInt32Printed(n);
    ParseDecimalPrinted(n);
  }

  /** CurrentValue is the decimal current value of a quantitative goal and missing from a time-based one. */
  lemma CurrentValueProperty(g: GoalView)
    ensures Property(g, "CurrentValue")
         == if g.details.Quantitative? then DecimalOf(g.details.currentValue) else Missing
  {
    var n := "CurrentValue";
    assert n[0] == 'C';
    assert n != "GoalID" && n != "ProgressEntries" && n != "Title" && n != "Description";
    assert n != "StartDate" && n != "EndDate" && n != "Status";
    assert n != "TargetValue" && n != "CurrentStreak" && n != "RequiredFrequency";
  }

  /** A fractional literal: "CurrentValue >= 2.5" holds for a quantitative goal at 2.5 or more. */
  lemma FractionalCondition(g: GoalView, completedCount: int)
    ensures EvaluateCondition("CurrentValue >= 2.5", g, completedCount)
        <==> g.details.Quantitative? && g.details.currentValue >= 2.5
  {
    assert Format("CurrentValue", ">=", "2.5") == "CurrentValue >= 2.5";
    assert !EndsWith("CurrentValue", CountSuffix) by {
      assert "CurrentValue"[|"CurrentValue"| - 1] != CountSuffix[|CountSuffix| - 1];
    }
    DirectCondition(g, "CurrentValue", ">=", "2.5", completedCount);
    ParseTwoAndAHalf();
    CurrentValueProperty(g);
  }

  /** "CurrentStreak >= n" holds for a time-based goal with that streak and never for a quantitative one. */
  lemma StreakCondition(g: GoalView, n: int, completedCount: int)
    requires Int32Min <= n <= Int32Max
    ensures EvaluateCondition(Format("CurrentStreak", ">=", IntToString(n)), g, completedCount)
        <==> g.details.TimeBased? && g.details.currentStreak >= n
  {
    assert !EndsWith("CurrentStreak", CountSuffix) by {
      assert "CurrentStreak"[|"CurrentStreak"| - 1] != CountSuffix[|CountSuffix| - 1];
    }
    DirectIntCondition(g, "CurrentStreak", ">=", n, completedCount);
  }

  /** Status is an enum, not an int: a condition on it is false whatever the literal. */
  lemma StatusConditionFalse(g: GoalView, op: string, literal: string, completedCount: int)
    requires ' ' !in op && ' ' !in literal
    ensures !EvaluateCondition(Format("Status", op, literal), g, completedCount)
  {
    assert !EndsWith("Status", CountSuffix);
    ParseFormat("Status", op, literal);
  }
}
