/** Member category and yearly activity from attendance
    (utils/categoryCalculator.js). The category thresholds are the ones the
    member record's save hook applies. */
module CategoryCalculator {
  import opened Common

  datatype Category = A | B | C

  /** The order of the categories: A above B above C. */
  function Rank(c: Category): nat {
    match c
    case A => 2
    case B => 1
    case C => 0
  }

  /** The thresholds: 75 days or more is A, more than 35 is B, anything else C. */
  function CategoryOf(n: real): (c: Category)
    ensures c == A <==> n >= 75.0
    ensures c == B <==> 35.0 < n < 75.0
    ensures c == C <==> n <= 35.0
  {
    if n >= 75.0 then A else if n > 35.0 then B else C
  }

  /** `getCategoryByAttendance(totalAttendanceDays)`: an argument that is
      missing or not a number (`Number(x) || 0`) counts as 0 days. */
  function GetCategoryByAttendance(days: Option<real>): (c: Category)
    ensures days.None? ==> c == C
    ensures days.Some? ==> c == CategoryOf(days.value)
  {
    CategoryOf(if days.Some? then days.value else 0.0)
  }

  /** More attendance never gives a lower category. */
  lemma CategoryIsMonotone(n: real, m: real)
    requires n <= m
    ensures Rank(CategoryOf(n)) <= Rank(CategoryOf(m))
  {
  }

  /** One attendance row as the activity check reads it. `month` 0 stands for
      a missing month, which is falsy. */
  datatype MonthlyRecord = MonthlyRecord(year: int, month: int, status: string)

  predicate Counts(r: MonthlyRecord, year: int) {
    r.year == year && r.status == "Present" && r.month != 0
  }

  /** The months in which the records show a presence in `year`. */
  function PresentMonths(records: seq<MonthlyRecord>, year: int): (ms: set<int>)
    ensures forall m :: m in ms <==> exists i :: 0 <= i < |records| && Counts(records[i], year) && records[i].month == m
  {
    set i | 0 <= i < |records| && Counts(records[i], year) :: records[i].month
  }

  /** `isActiveMemberByMonthlyAttendance(records, year)`; `None` stands for
      an argument that is not an array. */
  function IsActiveMember(records: Option<seq<MonthlyRecord>>, year: int): (active: bool)
    ensures records.None? ==> !active
    ensures records.Some? ==> (active <==> |PresentMonths(records.value, year)| == 12)
  {
    records.Some? && |PresentMonths(records.value, year)| == 12
  }

  /** Some counted record shows a presence in month `m` of `year`. */
  predicate PresentIn(records: seq<MonthlyRecord>, year: int, m: int) {
    exists i :: 0 <= i < |records| && Counts(records[i], year) && records[i].month == m
  }

  /** Where every counted record has a month from 1 to 12, a member is
      active exactly when each of the twelve months shows a presence. */
  lemma ActiveIffEveryMonthPresent(records: seq<MonthlyRecord>, year: int)
    requires forall i :: 0 <= i < |records| && Counts(records[i], year) ==> 1 <= records[i].month <= 12
    ensures IsActiveMember(Some(records), year) <==> forall m :: 1 <= m <= 12 ==> PresentIn(records, year, m)
  {
    if forall m :: 1 <= m <= 12 ==> PresentIn(records, year, m) {
      EveryMonthMakesTwelve(records, year);
    }
    if |PresentMonths(records, year)| == 12 {
      forall m | 1 <= m <= 12 ensures PresentIn(records, year, m) {
        TwelveMakesEveryMonth(records, year, m);
      }
    }
  }

  /** With valid months, the present months lie within 1..12. */
  lemma PresentMonthsInRange(records: seq<MonthlyRecord>, year: int)
    requires forall i :: 0 <= i < |records| && Counts(records[i], year) ==> 1 <= records[i].month <= 12
    ensures PresentMonths(records, year) <= Range(1, 13)
  {
  }

  /** A presence in each month gives twelve present months. */
  lemma EveryMonthMakesTwelve(records: seq<MonthlyRecord>, year: int)
    requires forall i :: 0 <= i < |records| && Counts(records[i], year) ==> 1 <= records[i].month <= 12
    requires forall m :: 1 <= m <= 12 ==> PresentIn(records, year, m)
    ensures |PresentMonths(records, year)| == 12
  {
    var ms := PresentMonths(records, year);
    var months := Range(1, 13);
    PresentMonthsInRange(records, year);
    forall m | m in months ensures m in ms {
      assert PresentIn(records, year, m);
    }
    RangeSize(1, 13);
    SubsetBothWays(ms, months);
  }

  /** Twelve valid present months cover every month. */
  lemma TwelveMakesEveryMonth(records: seq<MonthlyRecord>, year: int, m: int)
    requires forall i :: 0 <= i < |records| && Counts(records[i], year) ==> 1 <= records[i].month <= 12
    requires |PresentMonths(records, year)| == 12 && 1 <= m <= 12
    ensures PresentIn(records, year, m)
  {
    PresentMonthsInRange(records, year);
    FullSubrange(PresentMonths(records, year), 1, 13);
    assert m in Range(1, 13);
  }

  /** Sets that contain each other have the same size. */
  lemma SubsetBothWays(a: set<int>, b: set<int>)
    requires a <= b && b <= a
    ensures |a| == |b|
  {
    assert a == b;
  }

  /** A record from another year, with a status other than 'Present', or
      with a missing month changes nothing. */
  lemma IgnoredRecordsDoNotCount(records: seq<MonthlyRecord>, r: MonthlyRecord, year: int)
    requires !Counts(r, year)
    ensures PresentMonths(records + [r], year) == PresentMonths(records, year)
    ensures IsActiveMember(Some(records + [r]), year) == IsActiveMember(Some(records), year)
  {
    var extended := records + [r];
    forall m ensures m in PresentMonths(extended, year) <==> m in PresentMonths(records, year) {
      if m in PresentMonths(extended, year) {
        var i :| 0 <= i < |extended| && Counts(extended[i], year) && extended[i].month == m;
        assert i < |records| && records[i] == extended[i];
      }
      if m in PresentMonths(records, year) {
        var i :| 0 <= i < |records| && Counts(records[i], year) && records[i].month == m;
        assert extended[i] == records[i];
      }
    }
  }
}
