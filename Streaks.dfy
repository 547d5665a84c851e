/**
 * The streak of a time-based goal (TimeBaseGoal.cs). The calendar days of the ledger are
 * deduplicated and sorted newest first, each day is mapped to its bucket (the day, the
 * Sunday that starts its week, or the first day of its month), buckets are deduplicated,
 * and the streak is the run of consecutive buckets counted from the most recent one.
 * A bucket is represented by an int key: the day number of the day or of the Sunday,
 * or the month index year * 12 + month - 1 of the first day of the month.
 */
module Streaks {
  import opened Calendar
  import opened Records

  // ---------------------------------------------------------------- buckets

  /** The key of the bucket holding day d. */
  function BucketKey(f: Frequency, d: CivilDate): int {
    match f
    case Daily => DayNumber(d)
    case Weekly => DayNumber(d) - DayOfWeek(d)  // d.AddDays(-(int)d.DayOfWeek)
    case Monthly => MonthIndex(d)               // new DateTime(d.Year, d.Month, 1)
  }

  /** The key distance between consecutive buckets: AddDays(-1), AddDays(-7), AddMonths(-1). */
  function Step(f: Frequency): (step: int)
    ensures step == 1 || step == 7
  {
    match f
    case Weekly => 7
    case _ => 1
  }

  /** The singular unit word of the report (GetFrequencyUnitString). */
  function FrequencyUnitString(f: Frequency): string {
    match f
    case Daily => "Day"
    case Weekly => "Week"
    case Monthly => "Month"
  }

  /** A week bucket is a Sunday no later than the day and at most six days before it. */
  lemma WeekBucketIsSunday(d: CivilDate)
    ensures var k := BucketKey(Weekly, d); (k + 1) % 7 == 0 && DayNumber(d) - 6 <= k <= DayNumber(d)
  {
    RoundDown7(DayNumber(d) + 1);
  }

  lemma RoundDown7(x: int)
    ensures (x - x % 7) % 7 == 0 && x - 6 <= x - x % 7 <= x
  {
    assert x - x % 7 == 7 * (x / 7);
  }

  /** All keys of one frequency agree modulo the step, so no key lies strictly between consecutive ones. */
  lemma BucketResidue(f: Frequency, d: CivilDate)
    ensures BucketKey(f, d) % Step(f) == (if f == Weekly then 6 else 0)
  {
  }

  /** A later day lies in the same or a later bucket. */
  lemma BucketMonotone(f: Frequency, a: CivilDate, b: CivilDate)
    requires DayNumber(a) <= DayNumber(b)
    ensures BucketKey(f, a) <= BucketKey(f, b)
  {
    match f
    case Daily =>
    case Weekly => WeekStartMonotone(DayNumber(a) + 1, DayNumber(b) + 1);
    case Monthly => MonthIndexMonotone(a, b);
  }

  /** Rounding down to a multiple of 7 keeps the order. */
  lemma WeekStartMonotone(x: int, y: int)
    requires x <= y
    ensures x - x % 7 <= y - y % 7
  {
    assert x - x % 7 == 7 * (x / 7) && y - y % 7 == 7 * (y / 7);
    assert 7 * (x / 7) < 7 * (y / 7 + 1);
  }

  // ---------------------------------------------------------------- the status rule and the report

  /**
   * The end-date rule of CalculateProgress: once today is later than the end date, a goal
   * still InProgress becomes Complete; every other status stays as it is.
   */
  function TimeBasedStatus(status: GoalStatus, today: DateTime, endDate: DateTime): (r: GoalStatus)
    ensures r == Complete <==> status == Complete || (status == InProgress && Later(today, endDate))
    ensures r != status ==> status == InProgress && r == Complete
  {
    if Later(today, endDate) && status == InProgress then Complete else status
  }

  /** The report "{streak} {unit} Streak! (Required Frequency: {frequency})". */
  function TimeBasedReport(streak: nat, f: Frequency): (r: ProgressReport)
    ensures r.StreakCount? && r.streak == streak && r.requiredFrequency == f
    ensures r.unit == "Day" <==> f == Daily
    ensures r.unit == "Week" <==> f == Weekly
    ensures r.unit == "Month" <==> f == Monthly
  {
    StreakCount(streak, FrequencyUnitString(f), f)
  }

  /** The end-date rule never takes a goal out of Complete, and a second application changes nothing. */
  lemma TimeBasedStatusSettles(status: GoalStatus, today: DateTime, endDate: DateTime)
    ensures status == Complete ==> TimeBasedStatus(status, today, endDate) == Complete
    ensures var s := TimeBasedStatus(status, today, endDate); TimeBasedStatus(s, today, endDate) == s
  {
  }

  /** A Cancelled time-based goal stays Cancelled, however late it is. */
  lemma CancelledStaysCancelled(today: DateTime, endDate: DateTime)
    ensures TimeBasedStatus(Cancelled, today, endDate) == Cancelled
  {
  }

  // ---------------------------------------------------------------- the query pipeline

  /** ProgressEntries.Select(e => e.DateLogged.Date): the time of day is dropped. */
  function Days(entries: seq<ProgressEntry>): (r: seq<CivilDate>)
    ensures |r| == |entries| && forall i :: 0 <= i < |r| ==> r[i] == entries[i].dateLogged.date
  {
    if |entries| == 0 then [] else [entries[0].dateLogged.date] + Days(entries[1..])
  }

  /** Distinct(): the first occurrence of each element, in order. */
  function Distinct<T(==)>(s: seq<T>): (r: seq<T>)
    ensures forall i :: 0 <= i < |s| ==> s[i] in r
    ensures forall i :: 0 <= i < |r| ==> r[i] in s
    ensures forall i, j :: 0 <= i < j < |r| ==> r[i] != r[j]
  {
    if |s| == 0 then []
    else
      var p := s[..|s| - 1];
      var r := Distinct(p);
      var x := s[|s| - 1];
      assert forall i :: 0 <= i < |p| ==> s[i] == p[i];
      if x in r then r else r + [x]
  }

  /** Newest first: no date is earlier than one after it. */
  predicate NonIncreasingDays(s: seq<CivilDate>) {
    forall i, j :: 0 <= i < j < |s| ==> !Before(s[i], s[j])
  }

  /** Insert d before the first date that is not newer. */
  function Insert(d: CivilDate, s: seq<CivilDate>): (r: seq<CivilDate>)
    ensures multiset(r) == multiset(s) + multiset{d}
  {
    if |s| == 0 then [d]
    else if !Before(d, s[0]) then [d] + s
    else
      assert s == [s[0]] + s[1..];
      [s[0]] + Insert(d, s[1..])
  }

  lemma {:induction false} InsertSorted(d: CivilDate, s: seq<CivilDate>)
    requires NonIncreasingDays(s)
    ensures NonIncreasingDays(Insert(d, s))
  {
    if |s| > 0 && Before(d, s[0]) {
      assert NonIncreasingDays(s[1..]) by {
        assert forall i :: 0 <= i < |s[1..]| ==> s[1..][i] == s[i + 1];
      }
      InsertSorted(d, s[1..]);
      InsertBelow(s[0], d, s[1..]);
      ConsSorted(s[0], Insert(d, s[1..]));
    }
  }

  /** Every day of s[1..], and d, are no newer than top: so is every day after inserting d. */
  lemma InsertBelow(top: CivilDate, d: CivilDate, s: seq<CivilDate>)
    requires Before(d, top) && forall i :: 0 <= i < |s| ==> !Before(top, s[i])
    ensures forall x :: x in Insert(d, s) ==> !Before(top, x)
  {
    var t := Insert(d, s);
    forall x | x in t ensures !Before(top, x) {
      assert x in multiset(t);
      if x != d {
        assert x in multiset(s);
        var i :| 0 <= i < |s| && s[i] == x;
      }
    }
  }

  /** Putting a day no older than all of a sorted sequence in front keeps it sorted. */
  lemma ConsSorted(top: CivilDate, t: seq<CivilDate>)
    requires NonIncreasingDays(t) && forall x :: x in t ==> !Before(top, x)
    ensures NonIncreasingDays([top] + t)
  {
    var r := [top] + t;
    forall i, j | 0 <= i < j < |r| ensures !Before(r[i], r[j]) {
      if i == 0 {
        assert r[j] == t[j - 1] && t[j - 1] in t;
      } else {
        assert r[i] == t[i - 1] && r[j] == t[j - 1];
      }
    }
  }

  /** OrderByDescending(d => d): newest first. */
  function SortDescending(s: seq<CivilDate>): (r: seq<CivilDate>)
    ensures multiset(r) == multiset(s)
  {
    if |s| == 0 then []
    else
      assert s == [s[0]] + s[1..];
      Insert(s[0], SortDescending(s[1..]))
  }

  lemma {:induction false} SortDescendingSorted(s: seq<CivilDate>)
    ensures NonIncreasingDays(SortDescending(s))
  {
    if |s| > 0 {
      SortDescendingSorted(s[1..]);
      InsertSorted(s[0], SortDescending(s[1..]));
    }
  }

  predicate NoDuplicates(s: seq<CivilDate>) {
    forall i, j :: 0 <= i < j < |s| ==> s[i] != s[j]
  }

  lemma InInsert(d: CivilDate, s: seq<CivilDate>, x: CivilDate)
    ensures x in Insert(d, s) <==> x == d || x in s
  {
    assert x in Insert(d, s) <==> x in multiset(Insert(d, s));
    assert x in s <==> x in multiset(s);
  }

  /** Inserting a day that is not there yet keeps the days distinct. */
  lemma {:induction false} InsertNoDuplicates(d: CivilDate, s: seq<CivilDate>)
    requires NoDuplicates(s) && d !in s
    ensures NoDuplicates(Insert(d, s))
  {
    if |s| > 0 && Before(d, s[0]) {
      var t := Insert(d, s[1..]);
      assert NoDuplicates(s[1..]) by {
        assert forall i :: 0 <= i < |s[1..]| ==> s[1..][i] == s[i + 1];
      }
      assert d !in s[1..];
      InsertNoDuplicates(d, s[1..]);
      assert s[0] !in t by {
        InInsert(d, s[1..], s[0]);
        assert forall i :: 0 <= i < |s[1..]| ==> s[1..][i] != s[0];
      }
      var r := [s[0]] + t;
      forall i, j | 0 <= i < j < |r| ensures r[i] != r[j] {
        assert r[j] == t[j - 1];
        if i > 0 {
          assert r[i] == t[i - 1];
        }
      }
    } else if |s| > 0 {
      assert forall i :: 0 < i < |[d] + s| ==> ([d] + s)[i] == s[i - 1];
    }
  }

  /** Sorting distinct days keeps them distinct. */
  lemma {:induction false} SortNoDuplicates(s: seq<CivilDate>)
    requires NoDuplicates(s)
    ensures NoDuplicates(SortDescending(s))
  {
    if |s| > 0 {
      assert NoDuplicates(s[1..]) by {
        assert forall i :: 0 <= i < |s[1..]| ==> s[1..][i] == s[i + 1];
      }
      SortNoDuplicates(s[1..]);
      InSorted(s[1..], s[0]);
      assert s[0] !in s[1..] by {
        assert forall i :: 0 <= i < |s[1..]| ==> s[1..][i] == s[i + 1];
      }
      InsertNoDuplicates(s[0], SortDescending(s[1..]));
    }
  }

  /** Newest first and distinct: the day numbers strictly decrease. */
  lemma DailyKeysDecreasing(sorted: seq<CivilDate>)
    requires NonIncreasingDays(sorted) && NoDuplicates(sorted)
    ensures StrictlyDecreasing(Keys(Daily, sorted))
  {
    forall i, j | 0 <= i < j < |sorted| ensures DayNumber(sorted[j]) < DayNumber(sorted[i]) {
      DayNumberOrder(sorted[i], sorted[j]);
      DayNumberInjective(sorted[i], sorted[j]);
    }
  }

  /** The bucket key of every date. */
  function Keys(f: Frequency, dates: seq<CivilDate>): (r: seq<int>)
    ensures |r| == |dates| && forall i :: 0 <= i < |r| ==> r[i] == BucketKey(f, dates[i])
  {
    if |dates| == 0 then [] else [BucketKey(f, dates[0])] + Keys(f, dates[1..])
  }

  /**
   * The buckets of the ledger, most recent first (loggedDates, loggedWeeks, loggedMonths):
   * the Daily branch walks the sorted distinct days themselves, the other two deduplicate
   * the buckets once more.
   */
  function LoggedBuckets(f: Frequency, entries: seq<ProgressEntry>): seq<int> {
    var keys := Keys(f, SortDescending(Distinct(Days(entries))));
    if f == Daily then keys else Distinct(keys)
  }

  // ---------------------------------------------------------------- what the streak is

  /** The bucket an entry falls in. */
  function EntryKey(f: Frequency, e: ProgressEntry): int {
    BucketKey(f, e.dateLogged.date)
  }

  /** The calendar days on which something was logged. */
  ghost function LoggedDays(entries: seq<ProgressEntry>): set<CivilDate> {
    set e | e in entries :: e.dateLogged.date
  }

  /** The buckets in which something was logged. */
  ghost function BucketSet(f: Frequency, entries: seq<ProgressEntry>): set<int> {
    set d | d in LoggedDays(entries) :: BucketKey(f, d)
  }

  /** The most recent bucket of a non-empty ledger. */
  function LatestKey(f: Frequency, entries: seq<ProgressEntry>): int
    requires |entries| > 0
  {
    var k := EntryKey(f, entries[0]);
    if |entries| == 1 then k
    else
      var m := LatestKey(f, entries[1..]);
      if k >= m then k else m
  }

  /** The latest key is the key of some entry and no entry's key is later. */
  lemma {:induction false} LatestKeyBounds(f: Frequency, entries: seq<ProgressEntry>)
    requires |entries| > 0
    ensures exists i :: 0 <= i < |entries| && LatestKey(f, entries) == EntryKey(f, entries[i])
    ensures forall i :: 0 <= i < |entries| ==> EntryKey(f, entries[i]) <= LatestKey(f, entries)
  {
    if |entries| > 1 {
      LatestKeyBounds(f, entries[1..]);
      assert forall i :: 1 <= i < |entries| ==> entries[i] == entries[1..][i - 1];
      var m := LatestKey(f, entries[1..]);
      var j :| 0 <= j < |entries[1..]| && m == EntryKey(f, entries[1..][j]);
      assert entries[j + 1] == entries[1..][j];
      var w := if EntryKey(f, entries[0]) >= m then 0 else j + 1;
      assert LatestKey(f, entries) == EntryKey(f, entries[w]);
    } else {
      assert LatestKey(f, entries) == EntryKey(f, entries[0]);
    }
  }

  /** The key j steps before top. */
  function Back(top: int, step: int, j: nat): int {
    if j == 0 then top else Back(top, step, j - 1) - step
  }

  /** k consecutive buckets top, top - step, ... are logged, and the one before them is not. */
  ghost predicate IsRun(s: set<int>, top: int, step: int, k: nat) {
    (forall j: nat :: j < k ==> Back(top, step, j) in s) && Back(top, step, k) !in s
  }

  /**
   * The streak the code computes: 0 for an empty ledger, otherwise the length of the run
   * of consecutive buckets ending at the most recent logged bucket. It is not anchored to
   * any "today": it does not decay as time passes without entries.
   */
  ghost predicate IsStreak(f: Frequency, entries: seq<ProgressEntry>, k: nat) {
    if |entries| == 0 then k == 0
    else IsRun(BucketSet(f, entries), LatestKey(f, entries), Step(f), k)
  }

  // ---------------------------------------------------------------- the computation

  predicate StrictlyDecreasing(s: seq<int>) {
    forall i, j :: 0 <= i < j < |s| ==> s[j] < s[i]
  }

  predicate NonIncreasing(s: seq<int>) {
    forall i, j :: 0 <= i < j < |s| ==> s[j] <= s[i]
  }

  lemma {:induction false} DistinctOfNonIncreasing(s: seq<int>)
    requires NonIncreasing(s)
    ensures StrictlyDecreasing(Distinct(s))
  {
    if |s| > 0 {
      var p := s[..|s| - 1];
      DistinctOfNonIncreasing(p);
      var r := Distinct(p);
      var x := s[|s| - 1];
      if x !in r {
        assert forall y :: y in r ==> x <= y;
        var r' := r + [x];
        forall i, j | 0 <= i < j < |r'| ensures r'[j] < r'[i] {
          if j == |r| {
            assert r'[i] == r[i] && r[i] in r;
          }
        }
      }
    }
  }

  lemma KeysOfNonIncreasing(f: Frequency, dates: seq<CivilDate>)
    requires NonIncreasingDays(dates)
    ensures NonIncreasing(Keys(f, dates))
  {
    forall i, j | 0 <= i < j < |dates| ensures BucketKey(f, dates[j]) <= BucketKey(f, dates[i]) {
      DayNumberOrder(dates[i], dates[j]);
      BucketMonotone(f, dates[j], dates[i]);
    }
  }

  lemma InDistinct<T>(s: seq<T>, x: T)
    ensures x in Distinct(s) <==> x in s
  {
    var r := Distinct(s);
    if x in r {
      var i :| 0 <= i < |r| && r[i] == x;
    }
    if x in s {
      var i :| 0 <= i < |s| && s[i] == x;
    }
  }

  lemma InSorted(s: seq<CivilDate>, x: CivilDate)
    ensures x in SortDescending(s) <==> x in s
  {
    assert x in SortDescending(s) <==> x in multiset(SortDescending(s));
  }

  lemma InDays(entries: seq<ProgressEntry>, d: CivilDate)
    ensures d in Days(entries) <==> d in LoggedDays(entries)
  {
    var days := Days(entries);
    if d in LoggedDays(entries) {
      var e :| e in entries && e.dateLogged.date == d;
      var i :| 0 <= i < |entries| && entries[i] == e;
      assert days[i] == d;
    }
  }

  /** The days of the ledger, deduplicated and sorted, are exactly the logged days. */
  lemma SortedDaysMembers(entries: seq<ProgressEntry>, d: CivilDate)
    ensures d in SortDescending(Distinct(Days(entries))) <==> d in LoggedDays(entries)
  {
    InSorted(Distinct(Days(entries)), d);
    InDistinct(Days(entries), d);
    InDays(entries, d);
  }

  /** The keys of the sorted days are exactly the logged buckets. */
  lemma KeysMembers(f: Frequency, entries: seq<ProgressEntry>, x: int)
    ensures x in Keys(f, SortDescending(Distinct(Days(entries)))) <==> x in BucketSet(f, entries)
  {
    var sorted := SortDescending(Distinct(Days(entries)));
    var keys := Keys(f, sorted);
    if x in keys {
      var i :| 0 <= i < |keys| && keys[i] == x;
      SortedDaysMembers(entries, sorted[i]);
    }
    if x in BucketSet(f, entries) {
      var d :| d in LoggedDays(entries) && BucketKey(f, d) == x;
      SortedDaysMembers(entries, d);
      var i :| 0 <= i < |sorted| && sorted[i] == d;
      assert keys[i] == x;
    }
  }

  /** The pipeline yields strictly decreasing keys. */
  lemma LoggedBucketsDecreasing(f: Frequency, entries: seq<ProgressEntry>)
    ensures StrictlyDecreasing(LoggedBuckets(f, entries))
  {
    var distinct := Distinct(Days(entries));
    var sorted := SortDescending(distinct);
    var keys := Keys(f, sorted);
    SortDescendingSorted(distinct);
    if f == Daily {
      SortNoDuplicates(distinct);
      DailyKeysDecreasing(sorted);
    } else {
      KeysOfNonIncreasing(f, sorted);
      DistinctOfNonIncreasing(keys);
      assert LoggedBuckets(f, entries) == Distinct(keys);
    }
  }

  /** The pipeline yields exactly the logged buckets. */
  lemma LoggedBucketsMembers(f: Frequency, entries: seq<ProgressEntry>, x: int)
    ensures x in LoggedBuckets(f, entries) <==> x in BucketSet(f, entries)
  {
    KeysMembers(f, entries, x);
    InDistinct(Keys(f, SortDescending(Distinct(Days(entries)))), x);
  }

  /** Every entry's bucket is logged. */
  lemma EntryKeyLogged(f: Frequency, entries: seq<ProgressEntry>, i: int)
    requires 0 <= i < |entries|
    ensures EntryKey(f, entries[i]) in BucketSet(f, entries)
  {
    assert entries[i].dateLogged.date in LoggedDays(entries);
  }

  /** A non-empty ledger has a bucket. */
  lemma LoggedBucketsNonEmpty(f: Frequency, entries: seq<ProgressEntry>)
    requires |entries| > 0
    ensures |LoggedBuckets(f, entries)| > 0
  {
    EntryKeyLogged(f, entries, 0);
    LoggedBucketsMembers(f, entries, EntryKey(f, entries[0]));
  }

  /** Keys that agree modulo the step and differ are at least a step apart. */
  lemma ResidueGap(a: int, b: int, step: int)
    requires step == 1 || step == 7
    requires a % step == b % step && a < b
    ensures a <= b - step
  {
  }

  /** A walk that stopped after i consecutive keys has found the run from the first key. */
  lemma {:induction false} RunEnds(keys: seq<int>, s: set<int>, step: int, residue: int, i: nat)
    requires StrictlyDecreasing(keys)
    requires forall x :: x in keys <==> x in s
    requires step == 1 || step == 7
    requires forall p :: 0 <= p < |keys| ==> keys[p] % step == residue
    requires 1 <= i <= |keys|
    requires forall j: nat :: j < i ==> keys[j] == Back(keys[0], step, j)
    requires i == |keys| || keys[i] != keys[i - 1] - step
    ensures IsRun(s, keys[0], step, i)
  {
    forall j: nat | j < i ensures Back(keys[0], step, j) in s {
      assert keys[j] in keys;
    }
    var v := Back(keys[0], step, i);
    assert v == keys[i - 1] - step;
    if i < |keys| {
      ResidueGap(keys[i], keys[i - 1], step);
    }
    forall p | 0 <= p < |keys| ensures keys[p] != v {
      if p < i {
        assert keys[p] >= keys[i - 1];
      } else if p > i {
        assert keys[p] < keys[i];
      }
    }
  }

  /**
   * The walk of each branch of CalculateCurrentStreak: count buckets newest first while
   * each is exactly one step older than the last counted one, and stop at the first gap.
   */
  method CountRun(buckets: seq<int>, step: int) returns (streak: nat)
    requires |buckets| > 0
    ensures 1 <= streak <= |buckets|
    ensures forall j: nat :: j < streak ==> buckets[j] == Back(buckets[0], step, j)
    ensures streak == |buckets| || buckets[streak] != buckets[streak - 1] - step
  {
    streak := 1;
    var last := buckets[0];
    var i := 1;
    while i < |buckets|
      invariant 1 <= i <= |buckets|
      invariant streak == i && last == buckets[i - 1]
      invariant forall j: nat :: j < i ==> buckets[j] == Back(buckets[0], step, j)
    {
      if buckets[i] == last - step {
        streak := streak + 1;
        last := buckets[i];
      } else {
        break;
      }
      i := i + 1;
    }
  }

  /**
   * CalculateCurrentStreak: 0 for an empty ledger; otherwise the run of consecutive
   * buckets walked from the most recent one.
   */
  method CalculateCurrentStreak(entries: seq<ProgressEntry>, f: Frequency) returns (streak: nat)
    ensures IsStreak(f, entries, streak)
    ensures |entries| == 0 <==> streak == 0
    ensures |entries| > 0 ==> streak <= |LoggedBuckets(f, entries)|
  {
    if |entries| == 0 {
      return 0;
    }
    var buckets := LoggedBuckets(f, entries);
    LoggedBucketsNonEmpty(f, entries);
    streak := CountRun(buckets, Step(f));
    WalkStopped(f, entries, streak);
  }

  /** A walk over the logged buckets that stopped after i consecutive ones has found the streak. */
  lemma WalkStopped(f: Frequency, entries: seq<ProgressEntry>, i: nat)
    requires |entries| > 0
    requires 1 <= i <= |LoggedBuckets(f, entries)|
    requires var b := LoggedBuckets(f, entries);
      forall j: nat :: j < i ==> b[j] == Back(b[0], Step(f), j)
    requires var b := LoggedBuckets(f, entries);
      i == |b| || b[i] != b[i - 1] - Step(f)
    ensures IsStreak(f, entries, i)
  {
    var buckets := LoggedBuckets(f, entries);
    var s := BucketSet(f, entries);
    LoggedBucketsShape(f, entries);
    RunEnds(buckets, s, Step(f), if f == Weekly then 6 else 0, i);
    LatestIsFirst(f, entries, buckets, s);
  }

  /** The logged buckets strictly decrease, hold exactly the bucket set, and agree modulo the step. */
  lemma LoggedBucketsShape(f: Frequency, entries: seq<ProgressEntry>)
    ensures StrictlyDecreasing(LoggedBuckets(f, entries))
    ensures forall x :: x in LoggedBuckets(f, entries) <==> x in BucketSet(f, entries)
    ensures forall p :: 0 <= p < |LoggedBuckets(f, entries)| ==>
      LoggedBuckets(f, entries)[p] % Step(f) == (if f == Weekly then 6 else 0)
  {
    var buckets := LoggedBuckets(f, entries);
    LoggedBucketsDecreasing(f, entries);
    forall x ensures x in buckets <==> x in BucketSet(f, entries) {
      LoggedBucketsMembers(f, entries, x);
    }
    forall p | 0 <= p < |buckets| ensures buckets[p] % Step(f) == (if f == Weekly then 6 else 0) {
      BucketSetResidue(f, entries, buckets[p]);
    }
  }

  lemma BucketSetResidue(f: Frequency, entries: seq<ProgressEntry>, x: int)
    requires x in BucketSet(f, entries)
    ensures x % Step(f) == (if f == Weekly then 6 else 0)
  {
    var d :| d in LoggedDays(entries) && BucketKey(f, d) == x;
    BucketResidue(f, d);
  }

  /** The first of the strictly decreasing logged buckets is the latest one. */
  lemma LatestIsFirst(f: Frequency, entries: seq<ProgressEntry>, buckets: seq<int>, s: set<int>)
    requires |entries| > 0 && |buckets| > 0
    requires s == BucketSet(f, entries)
    requires StrictlyDecreasing(buckets)
    requires forall x :: x in buckets <==> x in s
    ensures buckets[0] == LatestKey(f, entries)
  {
    var m := LatestKey(f, entries);
    LatestKeyBounds(f, entries);
    var i :| 0 <= i < |entries| && m == EntryKey(f, entries[i]);
    EntryKeyLogged(f, entries, i);
    assert buckets[0] in s;
    var d :| d in LoggedDays(entries) && BucketKey(f, d) == buckets[0];
    var e :| e in entries && e.dateLogged.date == d;
    var k :| 0 <= k < |entries| && entries[k] == e;
    assert EntryKey(f, entries[k]) == buckets[0];
    var p :| 0 <= p < |buckets| && buckets[p] == m;
  }

  // ---------------------------------------------------------------- what the streak depends on

  lemma {:induction false} BackShift(top: int, step: int, j: nat)
    ensures Back(top + step, step, j + 1) == Back(top, step, j)
  {
    if j > 0 {
      BackShift(top, step, j - 1);
    }
  }

  lemma {:induction false} BackBelow(top: int, step: int, j: nat)
    requires step > 0
    ensures Back(top, step, j) <= top
    ensures j > 0 ==> Back(top, step, j) <= top - step
  {
    if j > 0 {
      BackBelow(top, step, j - 1);
    }
  }

  /** Whatever the set and the top, a run has only one length. */
  lemma RunUnique(s: set<int>, top: int, step: int, k1: nat, k2: nat)
    requires IsRun(s, top, step, k1) && IsRun(s, top, step, k2)
    ensures k1 == k2
  {
  }

  /** The latest key is the largest logged bucket. */
  lemma LatestKeyIsMax(f: Frequency, entries: seq<ProgressEntry>)
    requires |entries| > 0
    ensures LatestKey(f, entries) in BucketSet(f, entries)
    ensures forall x :: x in BucketSet(f, entries) ==> x <= LatestKey(f, entries)
  {
    var m := LatestKey(f, entries);
    LatestKeyBounds(f, entries);
    var i :| 0 <= i < |entries| && m == EntryKey(f, entries[i]);
    EntryKeyLogged(f, entries, i);
    forall x | x in BucketSet(f, entries) ensures x <= m {
      var d :| d in LoggedDays(entries) && BucketKey(f, d) == x;
      var e :| e in entries && e.dateLogged.date == d;
      var k :| 0 <= k < |entries| && entries[k] == e;
      assert EntryKey(f, entries[k]) == x;
    }
  }

  lemma LoggedDaysEmpty(entries: seq<ProgressEntry>)
    ensures LoggedDays(entries) == {} <==> |entries| == 0
  {
    if |entries| > 0 {
      assert entries[0].dateLogged.date in LoggedDays(entries);
    }
  }

  /**
   * The streak depends only on the set of calendar days logged: entry order, time of
   * day and repeated entries on one day or in one bucket do not change it.
   */
  lemma StreakDependsOnlyOnDays(f: Frequency, a: seq<ProgressEntry>, b: seq<ProgressEntry>, ka: nat, kb: nat)
    requires LoggedDays(a) == LoggedDays(b)
    requires IsStreak(f, a, ka) && IsStreak(f, b, kb)
    ensures ka == kb
  {
    LoggedDaysEmpty(a);
    LoggedDaysEmpty(b);
    if |a| > 0 {
      LatestKeyIsMax(f, a);
      LatestKeyIsMax(f, b);
      assert LatestKey(f, a) == LatestKey(f, b);
      RunUnique(BucketSet(f, a), LatestKey(f, a), Step(f), ka, kb);
    }
  }

  /** Reordering the ledger keeps its logged days. */
  lemma PermutedDays(a: seq<ProgressEntry>, b: seq<ProgressEntry>)
    requires multiset(a) == multiset(b)
    ensures LoggedDays(a) == LoggedDays(b)
  {
    forall e ensures e in a <==> e in b {
      assert e in a <==> e in multiset(a);
      assert e in b <==> e in multiset(b);
    }
  }

  /** Moving an entry to another time of the same day keeps the logged days. */
  lemma RetimedDays(a: seq<ProgressEntry>, i: int, t: TimeOfDay)
    requires 0 <= i < |a|
    ensures LoggedDays(a[i := a[i].(dateLogged := At(a[i].dateLogged.date, t))]) == LoggedDays(a)
  {
    var b := a[i := a[i].(dateLogged := At(a[i].dateLogged.date, t))];
    forall d ensures d in LoggedDays(b) <==> d in LoggedDays(a) {
      if d in LoggedDays(b) {
        var e :| e in b && e.dateLogged.date == d;
        var k :| 0 <= k < |b| && b[k] == e;
        assert a[k] in a;
      }
      if d in LoggedDays(a) {
        var e :| e in a && e.dateLogged.date == d;
        var k :| 0 <= k < |a| && a[k] == e;
        assert b[k] in b;
      }
    }
  }

  /** Appending an entry adds its day to the logged days and its bucket to the logged buckets. */
  lemma AppendBuckets(f: Frequency, a: seq<ProgressEntry>, e: ProgressEntry)
    ensures LoggedDays(a + [e]) == LoggedDays(a) + {e.dateLogged.date}
    ensures BucketSet(f, a + [e]) == BucketSet(f, a) + {EntryKey(f, e)}
  {
    assert forall x :: x in a + [e] <==> x in a || x == e;
  }

  /** An entry in a bucket that is already logged leaves the streak as it was. */
  lemma StreakSameBucket(f: Frequency, entries: seq<ProgressEntry>, e: ProgressEntry, k: nat)
    requires IsStreak(f, entries, k)
    requires |entries| > 0 && EntryKey(f, e) in BucketSet(f, entries)
    ensures IsStreak(f, entries + [e], k)
  {
    AppendBuckets(f, entries, e);
    LatestAfterAppend(f, entries, e);
    LatestKeyIsMax(f, entries);
  }

  /** A logged bucket one step after the top of a run extends the run by one. */
  lemma RunExtends(s: set<int>, top: int, step: int, k: nat)
    requires step > 0 && IsRun(s, top, step, k)
    requires forall x :: x in s ==> x <= top
    ensures IsRun(s + {top + step}, top + step, step, k + 1)
  {
    var top' := top + step;
    forall j: nat | j < k + 1 ensures Back(top', step, j) in s + {top'} {
      if j > 0 {
        BackShift(top, step, j - 1);
        assert Back(top, step, j - 1) in s;
      }
    }
    BackShift(top, step, k);
    BackBelow(top, step, k);
  }

  /** A logged bucket more than one step after every other starts a run of 1. */
  lemma RunRestarts(s: set<int>, top: int, step: int, v: int)
    requires step > 0 && v > top + step
    requires forall x :: x in s ==> x <= top
    ensures IsRun(s + {v}, v, step, 1)
  {
    assert Back(v, step, 1) == v - step;
  }

  /** The latest bucket after an append is the later of the old latest one and the entry's. */
  lemma LatestAfterAppend(f: Frequency, entries: seq<ProgressEntry>, e: ProgressEntry)
    requires |entries| > 0
    ensures var m := LatestKey(f, entries); var k := EntryKey(f, e);
      LatestKey(f, entries + [e]) == if k > m then k else m
  {
    var a := entries + [e];
    AppendBuckets(f, entries, e);
    LatestKeyIsMax(f, entries);
    LatestKeyIsMax(f, a);
  }

  /** The run from the latest bucket, extended by the bucket one step after it. */
  lemma LatestRunExtends(f: Frequency, entries: seq<ProgressEntry>, k: nat)
    requires IsStreak(f, entries, k) && |entries| > 0
    ensures var next := LatestKey(f, entries) + Step(f);
      IsRun(BucketSet(f, entries) + {next}, next, Step(f), k + 1)
  {
    LatestKeyIsMax(f, entries);
    RunExtends(BucketSet(f, entries), LatestKey(f, entries), Step(f), k);
  }

  lemma StreakOfAppended(f: Frequency, entries: seq<ProgressEntry>, e: ProgressEntry, k: nat)
    requires |entries| > 0 && EntryKey(f, e) == LatestKey(f, entries) + Step(f)
    requires var next := LatestKey(f, entries) + Step(f);
      IsRun(BucketSet(f, entries) + {next}, next, Step(f), k)
    ensures IsStreak(f, entries + [e], k)
  {
    var key := EntryKey(f, e);
    AppendBuckets(f, entries, e);
    LatestAfterAppend(f, entries, e);
    RunAtKey(BucketSet(f, entries), LatestKey(f, entries) + Step(f), key, Step(f), k);
    StreakFromRun(f, entries + [e], BucketSet(f, entries) + {key}, key, k);
  }

  lemma RunAtKey(s: set<int>, next: int, key: int, step: int, k: nat)
    requires key == next && IsRun(s + {next}, next, step, k)
    ensures IsRun(s + {key}, key, step, k)
  {
  }

  /** A run from the latest bucket over the logged buckets is the streak. */
  lemma StreakFromRun(f: Frequency, entries: seq<ProgressEntry>, s: set<int>, top: int, k: nat)
    requires |entries| > 0 && BucketSet(f, entries) == s && LatestKey(f, entries) == top
    requires IsRun(s, top, Step(f), k)
    ensures IsStreak(f, entries, k)
  {
  }

  /** An entry in the bucket after the latest one extends the streak by one. */
  lemma StreakExtends(f: Frequency, entries: seq<ProgressEntry>, e: ProgressEntry, k: nat)
    requires IsStreak(f, entries, k)
    requires |entries| > 0 && EntryKey(f, e) == LatestKey(f, entries) + Step(f)
    ensures IsStreak(f, entries + [e], k + 1)
  {
    LatestRunExtends(f, entries, k);
    StreakOfAppended(f, entries, e, k + 1);
  }

  /** An entry in a bucket more than one step after the latest one restarts the streak at 1. */
  lemma StreakRestarts(f: Frequency, entries: seq<ProgressEntry>, e: ProgressEntry)
    requires |entries| > 0 && EntryKey(f, e) > LatestKey(f, entries) + Step(f)
    ensures IsStreak(f, entries + [e], 1)
  {
    AppendBuckets(f, entries, e);
    LatestAfterAppend(f, entries, e);
    LatestKeyIsMax(f, entries);
    RunRestarts(BucketSet(f, entries), LatestKey(f, entries), Step(f), EntryKey(f, e));
  }

  /** A ledger of one entry has a streak of 1. */
  lemma StreakSingle(f: Frequency, e: ProgressEntry)
    ensures IsStreak(f, [e], 1)
  {
    AppendBuckets(f, [], e);
    assert [] + [e] == [e];
  }

  // ---------------------------------------------------------------- examples

  /** An entry of one unit logged at midnight of the given day. */
  function LogOn(d: CivilDate): ProgressEntry {
    ProgressEntry(0, 0, Midnight(d), 1.0, "")
  }

  /** November 2025 starts on day number 739555, a Saturday. */
  lemma November2025()
    ensures DaysBeforeYear(2025) == 739251 && DaysBeforeMonth(2025, 11) == 304
    ensures DayOfWeek(Date(2025, 11, 1)) == 6
  {
  }

  /**
   * Daily entries on three consecutive days, such as the three days before today, give a
   * streak of 3, in whatever order they were logged.
   */
  lemma ThreeDayStreak(e1: ProgressEntry, e2: ProgressEntry, e3: ProgressEntry)
    requires DayNumber(e2.dateLogged.date) == DayNumber(e1.dateLogged.date) + 1
    requires DayNumber(e3.dateLogged.date) == DayNumber(e2.dateLogged.date) + 1
    ensures IsStreak(Daily, [e1, e2, e3], 3)
  {
    TwoDayStreak(e1, e2);
    StreakExtends(Daily, [e1, e2], e3, 2);
    assert [e1, e2] + [e3] == [e1, e2, e3];
  }

  /** Daily entries on two consecutive days give a streak of 2 whose latest day is the second. */
  lemma TwoDayStreak(e1: ProgressEntry, e2: ProgressEntry)
    requires DayNumber(e2.dateLogged.date) == DayNumber(e1.dateLogged.date) + 1
    ensures IsStreak(Daily, [e1, e2], 2)
    ensures LatestKey(Daily, [e1, e2]) == EntryKey(Daily, e2)
  {
    StreakSingle(Daily, e1);
    StreakExtends(Daily, [e1], e2, 1);
    LatestAfterAppend(Daily, [e1], e2);
    assert [e1] + [e2] == [e1, e2];
  }

  /** Daily entries on D - 3, D - 1 and D stop at the missing D - 2: the streak is 2. */
  lemma GapStopsStreak(e1: ProgressEntry, e2: ProgressEntry, e3: ProgressEntry)
    requires DayNumber(e2.dateLogged.date) == DayNumber(e1.dateLogged.date) + 2
    requires DayNumber(e3.dateLogged.date) == DayNumber(e2.dateLogged.date) + 1
    ensures IsStreak(Daily, [e1, e2, e3], 2)
  {
    var a1 := [e1];
    var a2 := a1 + [e2];
    StreakRestarts(Daily, a1, e2);
    LatestAfterAppend(Daily, a1, e2);
    StreakExtends(Daily, a2, e3, 1);
    assert a2 + [e3] == [e1, e2, e3];
  }

  /** A Saturday and the next day, a Sunday, fall in consecutive weeks. */
  lemma SundayStartsWeek()
    ensures IsStreak(Weekly, [LogOn(Date(2025, 11, 29)), LogOn(Date(2025, 11, 30))], 2)
  {
    var e1, e2 := LogOn(Date(2025, 11, 29)), LogOn(Date(2025, 11, 30));
    November2025();
    StreakSingle(Weekly, e1);
    StreakExtends(Weekly, [e1], e2, 1);
    assert [e1] + [e2] == [e1, e2];
  }

  /** A Monday and the Saturday after it are one week. */
  lemma SameWeek()
    ensures IsStreak(Weekly, [LogOn(Date(2025, 11, 24)), LogOn(Date(2025, 11, 29))], 1)
  {
    var e1, e2 := LogOn(Date(2025, 11, 24)), LogOn(Date(2025, 11, 29));
    November2025();
    StreakSingle(Weekly, e1);
    AppendBuckets(Weekly, [e1], e2);
    StreakSameBucket(Weekly, [e1], e2, 1);
    assert [e1] + [e2] == [e1, e2];
  }

  /** The last day of January and the first of February are consecutive months; so are December and January. */
  lemma ConsecutiveMonths()
    ensures IsStreak(Monthly, [LogOn(Date(2024, 12, 15)), LogOn(Date(2025, 1, 31)), LogOn(Date(2025, 2, 1))], 3)
  {
    var e1, e2, e3 := LogOn(Date(2024, 12, 15)), LogOn(Date(2025, 1, 31)), LogOn(Date(2025, 2, 1));
    StreakSingle(Monthly, e1);
    StreakExtends(Monthly, [e1], e2, 1);
    assert [e1] + [e2] == [e1, e2];
    StreakExtends(Monthly, [e1, e2], e3, 2);
    assert [e1, e2] + [e3] == [e1, e2, e3];
  }
}
