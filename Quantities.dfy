/**
 * The derived state of a quantitative goal (QuantitativeGoal.cs): the current value is
 * the sum of the ledger, a non-positive target is reported as invalid, and reaching the
 * target completes the goal and caps the reported percentage at 100.
 * Decimal arithmetic is exact here.
 */
module Quantities {
  import opened Records

  /** ProgressEntries.Sum(entry => entry.ValueLogged). */
  function SumValues(entries: seq<ProgressEntry>): real {
    if |entries| == 0 then 0.0 else entries[0].valueLogged + SumValues(entries[1..])
  }

  /** Summing a ledger in two parts gives the sum of the whole. */
  lemma {:induction false} SumConcat(a: seq<ProgressEntry>, b: seq<ProgressEntry>)
    ensures SumValues(a + b) == SumValues(a) + SumValues(b)
  {
    if |a| > 0 {
      assert (a + b)[1..] == a[1..] + b;
      SumConcat(a[1..], b);
    } else {
      assert a + b == b;
    }
  }

  /** Logging one more entry adds its value to the current value. */
  lemma SumAppend(a: seq<ProgressEntry>, e: ProgressEntry)
    ensures SumValues(a + [e]) == SumValues(a) + e.valueLogged
  {
    SumConcat(a, [e]);
  }

  /** Taking one entry out of the ledger takes its value out of the sum. */
  lemma SumRemove(b: seq<ProgressEntry>, i: int)
    requires 0 <= i < |b|
    ensures SumValues(b) == b[i].valueLogged + SumValues(b[..i] + b[i + 1..])
  {
    var front, tail, back := b[..i], b[i..], b[i + 1..];
    assert b == front + tail;
    SumConcat(front, tail);
    assert tail[1..] == back;
    SumConcat(front, back);
  }

  lemma MultisetRemove(b: seq<ProgressEntry>, i: int)
    requires 0 <= i < |b|
    ensures multiset(b[..i] + b[i + 1..]) == multiset(b) - multiset{b[i]}
  {
    assert b == b[..i] + [b[i]] + b[i + 1..];
  }

  /** If b is a reordering of a, some b[i] is a[0] and the rest of b reorders the rest of a. */
  lemma PermutationTail(a: seq<ProgressEntry>, b: seq<ProgressEntry>) returns (i: int)
    requires |a| > 0 && multiset(a) == multiset(b)
    ensures 0 <= i < |b| && b[i] == a[0] && multiset(a[1..]) == multiset(b[..i] + b[i + 1..])
  {
    assert a[0] in multiset(b);
    i :| 0 <= i < |b| && b[i] == a[0];
    MultisetRemove(b, i);
    assert a == [a[0]] + a[1..];
    assert multiset(a[1..]) == multiset(a) - multiset{a[0]};
  }

  /** The current value does not depend on the order of the ledger. */
  lemma {:induction false} SumPermutation(a: seq<ProgressEntry>, b: seq<ProgressEntry>)
    requires multiset(a) == multiset(b)
    ensures SumValues(a) == SumValues(b)
  {
    if |a| > 0 {
      var i := PermutationTail(a, b);
      SumPermutation(a[1..], b[..i] + b[i + 1..]);
      SumRemove(b, i);
    } else {
      assert |multiset(b)| == 0;
    }
  }

  /**
   * The status after CalculateProgress: an invalid target leaves it as it was; reaching
   * the target makes it Complete, whatever it was before, Cancelled included.
   */
  function QuantitativeStatus(status: GoalStatus, target: real, current: real): (r: GoalStatus)
    ensures r == Complete <==> status == Complete || (target > 0.0 && current >= target)
    ensures r != Complete ==> r == status
  {
    if target <= 0.0 then status
    else if current >= target then Complete
    else status
  }

  /** The report of CalculateProgress. */
  function QuantitativeReport(target: real, current: real, unit: string): (r: ProgressReport)
    ensures r.TargetInvalid? <==> target <= 0.0
    ensures r.PercentComplete? ==>
      r.currentValue == current && r.targetValue == target && r.unitOfMeasure == unit
      && r.percentage <= 100.0
      && (r.percentage == 100.0 <==> current >= target)
      && (current < target ==> r.percentage * target == current * 100.0)
  {
    if target <= 0.0 then TargetInvalid
    else if current >= target then PercentComplete(100.0, current, target, unit)
    else
      var percentage := current / target * 100.0;
      assert percentage < 100.0 by {
        assert current / target < 1.0;
      }
      PercentComplete(percentage, current, target, unit)
  }

  /** A goal that is Complete stays Complete. */
  lemma CompleteIsFinal(status: GoalStatus, target: real, current: real)
    requires status == Complete
    ensures QuantitativeStatus(status, target, current) == Complete
  {
  }

  /** Recomputing on an unchanged ledger changes nothing more. */
  lemma QuantitativeIdempotent(status: GoalStatus, target: real, entries: seq<ProgressEntry>)
    ensures var s := QuantitativeStatus(status, target, SumValues(entries));
      QuantitativeStatus(s, target, SumValues(entries)) == s
  {
  }

  /** The completion branch has no status guard: a Cancelled goal that reaches its target is Complete. */
  lemma CancelledCompletes(target: real, entries: seq<ProgressEntry>)
    requires target > 0.0 && SumValues(entries) >= target
    ensures QuantitativeStatus(Cancelled, target, SumValues(entries)) == Complete
  {
  }

  /** With a positive target, non-negative entries can only move the status towards Complete. */
  lemma MoreProgressNeverUncompletes(status: GoalStatus, target: real, a: seq<ProgressEntry>, e: ProgressEntry)
    requires e.valueLogged >= 0.0
    requires QuantitativeStatus(status, target, SumValues(a)) == Complete
    ensures QuantitativeStatus(status, target, SumValues(a + [e])) == Complete
  {
    SumAppend(a, e);
  }
}
