/** The yearly targets of the group (models/YearlyGoals.js): the column
    bounds, the one-row-per-year rule, the save hook that dates approval and
    completion, and the three status methods. */
module YearlyGoals {
  import opened Common

  datatype GoalStatus = Draft | Active | Completed | Cancelled

  /** One year's targets. Amounts are the DECIMAL columns, counts the INTEGER
      ones; every target column is nullable. */
  datatype Goal = Goal(
    id: Id,
    year: int,
    targetWoodDistribution: Option<real>,
    targetAttendanceRate: Option<real>,
    targetActiveMembers: Option<int>,
    targetNewMembers: Option<int>,
    targetRevenue: Option<real>,
    targetCategoryAMembers: Option<int>,
    targetForestMaintenance: Option<int>,
    targetTreePlanting: Option<int>,
    budgetAllocation: Option<real>,
    description: Option<string>,
    status: GoalStatus,
    createdBy: Id,
    approvedBy: Option<Id>,
    approvedDate: Option<int>,
    completedDate: Option<int>)

  const MinYear: int := 2000
  const MaxYear: int := 2100

  /** A nullable amount or count meets a `min` validator; null skips it. */
  predicate AtLeast0(x: Option<real>) { x.None? || x.value >= 0.0 }
  predicate CountAtLeast0(x: Option<int>) { x.None? || x.value >= 0 }

  /** The column validators: the year between 2000 and 2100, the attendance
      rate a percentage, every other target non-negative. */
  predicate Valid(g: Goal) {
    && MinYear <= g.year <= MaxYear
    && (g.targetAttendanceRate.None? || 0.0 <= g.targetAttendanceRate.value <= 100.0)
    && AtLeast0(g.targetWoodDistribution) && AtLeast0(g.targetRevenue) && AtLeast0(g.budgetAllocation)
    && CountAtLeast0(g.targetActiveMembers) && CountAtLeast0(g.targetNewMembers)
    && CountAtLeast0(g.targetCategoryAMembers) && CountAtLeast0(g.targetForestMaintenance)
    && CountAtLeast0(g.targetTreePlanting)
  }

  /** A new row as the column defaults leave it. */
  function NewGoal(id: Id, year: int, createdBy: Id): (g: Goal)
    ensures g.status == Draft && g.approvedDate.None? && g.completedDate.None?
    ensures Valid(g) <==> MinYear <= year <= MaxYear
  {
    Goal(id, year, Some(0.0), Some(80.0), Some(0), Some(0), Some(0.0), Some(0), Some(12), Some(0), Some(0.0),
         None, Draft, createdBy, None, None, None)
  }

  /** The beforeSave hook. `statusChanged` is Sequelize's `changed('status')`.
      On a new row it holds for a status the caller supplies but not for the
      column default 'Draft'; creation passes `true`, which is the same thing
      for 'Draft' because that status stamps no date either way. A change to
      'Active' dates the approval, a change to 'Completed' the completion,
      each only when that date is still unset. */
  function BeforeSave(g: Goal, statusChanged: bool, now: int): (r: Goal)
    ensures r.(approvedDate := g.approvedDate, completedDate := g.completedDate) == g
    ensures r.approvedDate != g.approvedDate <==> statusChanged && g.status == Active && g.approvedDate.None?
    ensures r.completedDate != g.completedDate <==> statusChanged && g.status == Completed && g.completedDate.None?
    ensures r.approvedDate != g.approvedDate ==> r.approvedDate == Some(now)
    ensures r.completedDate != g.completedDate ==> r.completedDate == Some(now)
  {
    var a := if statusChanged && g.status == Active && g.approvedDate.None? then g.(approvedDate := Some(now)) else g;
    if statusChanged && a.status == Completed && a.completedDate.None? then a.(completedDate := Some(now)) else a
  }

  /** An active goal has an approval date and a completed one a completion date. */
  predicate Dated(g: Goal) {
    && (g.status == Active ==> g.approvedDate.Some?)
    && (g.status == Completed ==> g.completedDate.Some?)
  }

  /** Saving keeps goals dated, provided the save itself clears no date. */
  lemma SaveKeepsGoalsDated(prev: Goal, g: Goal, now: int)
    requires Dated(prev)
    requires prev.approvedDate.Some? ==> g.approvedDate.Some?
    requires prev.completedDate.Some? ==> g.completedDate.Some?
    ensures Dated(BeforeSave(g, g.status != prev.status, now))
  {
  }

  /** A new goal is dated once saved, whatever status it starts with. */
  lemma CreatedGoalsAreDated(g: Goal, now: int)
    ensures Dated(BeforeSave(g, true, now))
  {
  }

  /** `activate(approvedBy)`: 'Active', the approver recorded and the
      approval dated now, even when it was approved before. */
  function Activate(g: Goal, approvedBy: Option<Id>, now: int): (r: Goal)
    ensures r.status == Active && r.approvedBy == approvedBy && r.approvedDate == Some(now)
    ensures r.(status := g.status, approvedBy := g.approvedBy, approvedDate := g.approvedDate) == g
  {
    var n := g.(status := Active, approvedBy := approvedBy, approvedDate := Some(now));
    BeforeSave(n, n.status != g.status, now)
  }

  /** `complete()`: 'Completed', dated now. */
  function Complete(g: Goal, now: int): (r: Goal)
    ensures r.status == Completed && r.completedDate == Some(now)
    ensures r.(status := g.status, completedDate := g.completedDate) == g
  {
    var n := g.(status := Completed, completedDate := Some(now));
    BeforeSave(n, n.status != g.status, now)
  }

  /** `cancel()`: 'Cancelled', and no date is touched. */
  function Cancel(g: Goal, now: int): (r: Goal)
    ensures r.status == Cancelled
    ensures r.(status := g.status) == g
  {
    var n := g.(status := Cancelled);
    BeforeSave(n, n.status != g.status, now)
  }

  /** The three methods never leave a dated goal undated, and cancelling a
      completed goal keeps its completion date. */
  lemma StatusMethodsKeepGoalsDated(g: Goal, approvedBy: Option<Id>, now: int)
    requires Dated(g)
    ensures Dated(Activate(g, approvedBy, now)) && Dated(Complete(g, now)) && Dated(Cancel(g, now))
    ensures g.status == Completed ==> Cancel(g, now).completedDate == g.completedDate
  {
  }

  // ---- the table ----

  /** No two rows share a year (the unique index on `year`). */
  predicate YearsUnique(goals: seq<Goal>) {
    forall i, j :: 0 <= i < j < |goals| ==> goals[i].year != goals[j].year
  }

  datatype Stored = Invalid | DuplicateYear | Saved(goals: seq<Goal>)

  /** `YearlyGoals.create(values)`: the validators, then the unique index,
      then the hook. */
  function Create(goals: seq<Goal>, g: Goal, now: int): (s: Stored)
    ensures s == Invalid <==> !Valid(g)
    ensures s == DuplicateYear <==> Valid(g) && exists i :: 0 <= i < |goals| && goals[i].year == g.year
    ensures s.Saved? ==> s.goals == goals + [BeforeSave(g, true, now)]
  {
    if !Valid(g) then Invalid
    else if exists i :: 0 <= i < |goals| && goals[i].year == g.year then DuplicateYear
    else Saved(goals + [BeforeSave(g, true, now)])
  }

  /** Saving the row at `k` with new values. */
  function Update(goals: seq<Goal>, k: nat, g: Goal, now: int): (s: Stored)
    requires k < |goals|
    ensures s == Invalid <==> !Valid(g)
    ensures s == DuplicateYear <==> Valid(g) && exists i :: 0 <= i < |goals| && i != k && goals[i].year == g.year
    ensures s.Saved? ==> s.goals == goals[k := BeforeSave(g, g.status != goals[k].status, now)]
  {
    if !Valid(g) then Invalid
    else if exists i :: 0 <= i < |goals| && i != k && goals[i].year == g.year then DuplicateYear
    else Saved(goals[k := BeforeSave(g, g.status != goals[k].status, now)])
  }

  /** Every row in the table passes the validators. */
  predicate AllValid(goals: seq<Goal>) {
    forall i :: 0 <= i < |goals| ==> Valid(goals[i])
  }

  /** Creating and updating keep the table valid with one row per year. */
  lemma SavesKeepTableSound(goals: seq<Goal>, k: nat, g: Goal, now: int)
    requires AllValid(goals) && YearsUnique(goals) && k < |goals|
    ensures Create(goals, g, now).Saved? ==>
              AllValid(Create(goals, g, now).goals) && YearsUnique(Create(goals, g, now).goals)
    ensures Update(goals, k, g, now).Saved? ==>
              AllValid(Update(goals, k, g, now).goals) && YearsUnique(Update(goals, k, g, now).goals)
  {
    var c := Create(goals, g, now);
    if c.Saved? {
      var r := c.goals;
      forall i, j | 0 <= i < j < |r| ensures r[i].year != r[j].year {
        if j == |goals| {
          assert r[i] == goals[i];
        } else {
          assert r[i] == goals[i] && r[j] == goals[j];
        }
      }
    }
    var u := Update(goals, k, g, now);
    if u.Saved? {
      var r := u.goals;
      forall i, j | 0 <= i < j < |r| ensures r[i].year != r[j].year {
        if i == k {
          assert r[j] == goals[j];
        } else if j == k {
          assert r[i] == goals[i];
        } else {
          assert r[i] == goals[i] && r[j] == goals[j];
        }
      }
    }
  }

  /** `getGoalsByYear(year)`: the row for the year, if any. */
  function GoalsByYear(goals: seq<Goal>, year: int): (r: Option<Goal>)
    ensures r.Some? ==> r.value in goals && r.value.year == year
    ensures r.None? <==> forall i :: 0 <= i < |goals| ==> goals[i].year != year
  {
    if |goals| == 0 then None
    else if goals[0].year == year then Some(goals[0])
    else GoalsByYear(goals[1..], year)
  }

  /** With one row per year the lookup finds exactly the row of that year. */
  lemma {:induction false} LookupFindsTheYearsRow(goals: seq<Goal>, k: nat)
    requires YearsUnique(goals) && k < |goals|
    ensures GoalsByYear(goals, goals[k].year) == Some(goals[k])
  {
    if k > 0 {
      assert goals[0].year != goals[k].year;
      assert goals[1..][k - 1] == goals[k];
      LookupFindsTheYearsRow(goals[1..], k - 1);
    }
  }
}
