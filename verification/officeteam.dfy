/** Office staff records (models/OfficeTeam.js): the update hook that dates a
    termination, the four status methods, the service duration, the total
    compensation, the redacted public view and the team statistics. */
module OfficeTeam {
  import opened Common
  import opened Tally

  datatype Position =
    | Chairman | ViceChairman | Secretary | Treasurer | Member | Advisor
    | ForestOfficer | TechnicalOfficer | CommunityLiaison

  datatype TeamStatus = Active | Inactive | OnLeave | Terminated

  /** A staff record. Amounts are the DECIMAL columns, dates milliseconds. */
  datatype TeamMember = TeamMember(
    id: Id,
    fullName: string,
    position: Position,
    department: Option<string>,
    contactNumber: Option<string>,
    email: Option<string>,
    joinedDate: int,
    terminatedDate: Option<int>,
    salary: Option<real>,
    allowances: Option<real>,
    status: TeamStatus,
    employeeId: Option<string>,
    bankAccountNumber: Option<string>,
    bankName: Option<string>,
    panNumber: Option<string>,
    citizenshipNumber: Option<string>,
    notes: Option<string>,
    addedBy: Id,
    lastUpdatedBy: Option<Id>)

  /** The beforeUpdate hook: a record whose status has just become
      'Terminated' and carries no termination date gets the current time. */
  function BeforeUpdate(prev: TeamMember, m: TeamMember, now: int): (r: TeamMember)
    ensures r.(terminatedDate := m.terminatedDate) == m
    ensures m.terminatedDate.Some? ==> r.terminatedDate == m.terminatedDate
    ensures r.terminatedDate != m.terminatedDate <==>
              m.status != prev.status && m.status == Terminated && m.terminatedDate.None?
    ensures r.terminatedDate != m.terminatedDate ==> r.terminatedDate == Some(now)
  {
    if m.status != prev.status && m.status == Terminated && m.terminatedDate.None? then
      m.(terminatedDate := Some(now))
    else m
  }

  /** A terminated record always carries its termination date. */
  predicate Dated(m: TeamMember) {
    m.status == Terminated ==> m.terminatedDate.Some?
  }

  /** Any update that does not itself clear the termination date keeps every
      terminated record dated. */
  lemma UpdateKeepsTerminationDated(prev: TeamMember, m: TeamMember, now: int)
    requires Dated(prev)
    requires prev.terminatedDate.Some? ==> m.terminatedDate.Some?
    ensures Dated(BeforeUpdate(prev, m, now))
  {
  }

  /** `activate()`: back to 'Active', with the termination date cleared. */
  function Activate(m: TeamMember, now: int): (r: TeamMember)
    ensures r.status == Active && r.terminatedDate.None?
    ensures r.(status := m.status, terminatedDate := m.terminatedDate) == m
  {
    BeforeUpdate(m, m.(status := Active, terminatedDate := None), now)
  }

  /** `deactivate()`: only the status changes; a termination date stays. */
  function Deactivate(m: TeamMember, now: int): (r: TeamMember)
    ensures r.status == Inactive
    ensures r.(status := m.status) == m
  {
    BeforeUpdate(m, m.(status := Inactive), now)
  }

  /** `terminate(notes)`: 'Terminated', dated now; the notes are replaced
      only when a non-empty text is given. */
  function Terminate(m: TeamMember, notes: Option<string>, now: int): (r: TeamMember)
    ensures r.status == Terminated && r.terminatedDate == Some(now)
    ensures Given(notes) ==> r.notes == notes
    ensures !Given(notes) ==> r.notes == m.notes
    ensures r.(status := m.status, terminatedDate := m.terminatedDate, notes := m.notes) == m
  {
    var n := m.(status := Terminated, terminatedDate := Some(now));
    BeforeUpdate(m, if Given(notes) then n.(notes := notes) else n, now)
  }

  /** `setOnLeave()`: only the status changes. */
  function SetOnLeave(m: TeamMember, now: int): (r: TeamMember)
    ensures r.status == OnLeave
    ensures r.(status := m.status) == m
  {
    BeforeUpdate(m, m.(status := OnLeave), now)
  }

  /** The four methods keep every terminated record dated; a record that is
      terminated and then deactivated keeps its termination date. */
  lemma StatusMethodsKeepTerminationDated(m: TeamMember, notes: Option<string>, now: int)
    requires Dated(m)
    ensures Dated(Activate(m, now)) && Dated(Deactivate(m, now))
    ensures Dated(Terminate(m, notes, now)) && Dated(SetOnLeave(m, now))
    ensures Deactivate(Terminate(m, notes, now), now).terminatedDate == Some(now)
  {
  }

  /** `getServiceDuration()` without its display text. */
  datatype Duration = Duration(days: int, years: int, months: int)

  /** The service interval in milliseconds: from joining to termination, or
      to now while the record has no termination date. */
  function ServiceMs(m: TeamMember, now: int): (d: int)
    ensures d >= 0
    ensures m.terminatedDate.Some? ==> d == m.terminatedDate.value - m.joinedDate || d == m.joinedDate - m.terminatedDate.value
    ensures m.terminatedDate.None? ==> d == now - m.joinedDate || d == m.joinedDate - now
  {
    var end := if m.terminatedDate.Some? then m.terminatedDate.value else now;
    if end >= m.joinedDate then end - m.joinedDate else m.joinedDate - end
  }

  /** Days are whole days rounded up; years are 365-day years; months are
      30-day months of what is left, so there can be twelve of them. */
  function ServiceDuration(m: TeamMember, now: int): (d: Duration)
    ensures (d.days - 1) * DayMs < ServiceMs(m, now) <= d.days * DayMs
    ensures d.days >= 0
    ensures 365 * d.years <= d.days < 365 * (d.years + 1)
    ensures 30 * d.months <= d.days - 365 * d.years < 30 * (d.months + 1)
    ensures 0 <= d.months <= 12
  {
    var days := CeilDiv(ServiceMs(m, now), DayMs);
    Duration(days, days / 365, (days % 365) / 30)
  }

  /** Once terminated, the duration no longer depends on the clock. */
  lemma TerminatedDurationIsFrozen(m: TeamMember, now1: int, now2: int)
    requires m.terminatedDate.Some?
    ensures ServiceDuration(m, now1) == ServiceDuration(m, now2)
  {
  }

  /** While a record has no termination date, its service only grows. */
  lemma ServiceGrowsWithTime(m: TeamMember, now1: int, now2: int)
    requires m.terminatedDate.None? && m.joinedDate <= now1 <= now2
    ensures ServiceDuration(m, now1).days <= ServiceDuration(m, now2).days
  {
  }

  /** 360 days of service read as 0 years and 12 months. */
  lemma TwelveMonthsIsPossible(m: TeamMember)
    requires m.terminatedDate == Some(m.joinedDate + 360 * DayMs)
    ensures ServiceDuration(m, 0) == Duration(360, 0, 12)
  {
    assert ServiceMs(m, 0) == 360 * DayMs;
  }

  /** `parseFloat(x) || 0` of a nullable amount. */
  function AmountOr0(x: Option<real>): real {
    if x.Some? then x.value else 0.0
  }

  /** `getTotalCompensation()`: salary plus allowances, a missing one as 0. */
  function TotalCompensation(m: TeamMember): (c: real)
    ensures m.salary.None? && m.allowances.None? ==> c == 0.0
    ensures m.salary.Some? && m.allowances.None? ==> c == m.salary.value
    ensures m.salary.None? && m.allowances.Some? ==> c == m.allowances.value
    ensures m.salary.Some? && m.allowances.Some? ==> c == m.salary.value + m.allowances.value
  {
    AmountOr0(m.salary) + AmountOr0(m.allowances)
  }

  /** The view `toJSON()` gives: every column but the salary, the bank
      account, the PAN and the citizenship number. */
  datatype PublicMember = PublicMember(
    id: Id,
    fullName: string,
    position: Position,
    department: Option<string>,
    contactNumber: Option<string>,
    email: Option<string>,
    joinedDate: int,
    terminatedDate: Option<int>,
    allowances: Option<real>,
    status: TeamStatus,
    employeeId: Option<string>,
    bankName: Option<string>,
    notes: Option<string>,
    addedBy: Id,
    lastUpdatedBy: Option<Id>)

  function ToJson(m: TeamMember): (p: PublicMember)
    ensures p.id == m.id && p.fullName == m.fullName && p.position == m.position
    ensures p.department == m.department && p.contactNumber == m.contactNumber && p.email == m.email
    ensures p.joinedDate == m.joinedDate && p.terminatedDate == m.terminatedDate
    ensures p.allowances == m.allowances && p.status == m.status && p.employeeId == m.employeeId
    ensures p.bankName == m.bankName && p.notes == m.notes
    ensures p.addedBy == m.addedBy && p.lastUpdatedBy == m.lastUpdatedBy
  {
    PublicMember(m.id, m.fullName, m.position, m.department, m.contactNumber, m.email,
                 m.joinedDate, m.terminatedDate, m.allowances, m.status, m.employeeId,
                 m.bankName, m.notes, m.addedBy, m.lastUpdatedBy)
  }

  /** Two records that differ only in the four secrets look the same. */
  lemma ToJsonHidesSecrets(m: TeamMember, salary: Option<real>, account: Option<string>,
                           pan: Option<string>, citizenship: Option<string>)
    ensures ToJson(m.(salary := salary, bankAccountNumber := account, panNumber := pan,
                      citizenshipNumber := citizenship)) == ToJson(m)
  {
  }

  // ---- getTeamStats ----

  function Statuses(ms: seq<TeamMember>): (ss: seq<TeamStatus>)
    ensures |ss| == |ms|
    ensures forall i :: 0 <= i < |ms| ==> ss[i] == ms[i].status
  {
    MapSeq(ms, (m: TeamMember) => m.status)
  }

  /** A status is listed exactly when some member has it. */
  lemma StatusOccurs(ms: seq<TeamMember>, st: TeamStatus)
    ensures st in Statuses(ms) <==> exists i :: 0 <= i < |ms| && ms[i].status == st
  {
    var ss := Statuses(ms);
    if st in ss {
      var i :| 0 <= i < |ss| && ss[i] == st;
      assert ms[i].status == st;
    }
  }

  /** The positions of the active staff, in order. */
  function ActivePositions(ms: seq<TeamMember>): (ps: seq<Position>)
    ensures |ps| <= |ms|
  {
    if |ms| == 0 then []
    else (if ms[0].status == Active then [ms[0].position] else []) + ActivePositions(ms[1..])
  }

  /** `SUM(column) WHERE status = 'Active'`, where NULL adds nothing. */
  function ActiveSum(ms: seq<TeamMember>, salaries: bool): real {
    if |ms| == 0 then 0.0
    else
      (if ms[0].status == Active then AmountOr0(if salaries then ms[0].salary else ms[0].allowances) else 0.0)
      + ActiveSum(ms[1..], salaries)
  }

  /** The compensation of the active staff, summed one record at a time. */
  function ActiveCompensation(ms: seq<TeamMember>): real {
    if |ms| == 0 then 0.0
    else (if ms[0].status == Active then TotalCompensation(ms[0]) else 0.0) + ActiveCompensation(ms[1..])
  }

  /** A position is listed exactly when some active member holds it. */
  lemma {:induction false} PositionOccurs(ms: seq<TeamMember>, p: Position)
    ensures p in ActivePositions(ms) <==> exists i :: 0 <= i < |ms| && ms[i].status == Active && ms[i].position == p
  {
    if |ms| > 0 {
      PositionOccurs(ms[1..], p);
      if p in ActivePositions(ms[1..]) {
        var i :| 0 <= i < |ms[1..]| && ms[1..][i].status == Active && ms[1..][i].position == p;
        assert ms[i + 1] == ms[1..][i];
      }
      if exists i :: 0 <= i < |ms| && ms[i].status == Active && ms[i].position == p {
        var i :| 0 <= i < |ms| && ms[i].status == Active && ms[i].position == p;
        if i > 0 {
          assert ms[1..][i - 1] == ms[i];
        }
      }
    }
  }

  datatype Financials = Financials(totalSalary: real, totalAllowances: real, totalCompensation: real)

  datatype TeamStats = TeamStats(byStatus: map<TeamStatus, nat>, byPosition: map<Position, nat>, financials: Financials)

  /** The status counts: a key for each status that occurs, with its count. */
  function StatusCounts(ms: seq<TeamMember>): (m: map<TeamStatus, nat>)
    ensures forall st :: st in m <==> exists i :: 0 <= i < |ms| && ms[i].status == st
    ensures forall st :: st in m ==> m[st] == multiset(Statuses(ms))[st]
  {
    var m := Fold(map[], Statuses(ms));
    assert forall st :: st in m <==> exists i :: 0 <= i < |ms| && ms[i].status == st by {
      forall st ensures st in m <==> exists i :: 0 <= i < |ms| && ms[i].status == st {
        StatusOccurs(ms, st);
      }
    }
    m
  }

  /** The position counts: a key for each position an active member holds,
      with the number of active members holding it. */
  function PositionCounts(ms: seq<TeamMember>): (m: map<Position, nat>)
    ensures forall p :: p in m <==> exists i :: 0 <= i < |ms| && ms[i].status == Active && ms[i].position == p
    ensures forall p :: p in m ==> m[p] == multiset(ActivePositions(ms))[p]
  {
    var m := Fold(map[], ActivePositions(ms));
    assert forall p :: p in m <==> exists i :: 0 <= i < |ms| && ms[i].status == Active && ms[i].position == p by {
      forall p ensures p in m <==> exists i :: 0 <= i < |ms| && ms[i].status == Active && ms[i].position == p {
        PositionOccurs(ms, p);
      }
    }
    m
  }

  /** `getTeamStats()`: the status and position counts hold only the keys
      that occur (the reduce starts from an empty object); the position
      counts and the sums are over the active staff. */
  function GetTeamStats(ms: seq<TeamMember>): (s: TeamStats)
    ensures forall st :: st in s.byStatus <==> exists i :: 0 <= i < |ms| && ms[i].status == st
    ensures forall st :: st in s.byStatus ==> s.byStatus[st] == multiset(Statuses(ms))[st]
    ensures forall p :: p in s.byPosition <==> exists i :: 0 <= i < |ms| && ms[i].status == Active && ms[i].position == p
    ensures forall p :: p in s.byPosition ==> s.byPosition[p] == multiset(ActivePositions(ms))[p]
    ensures s.financials.totalCompensation == s.financials.totalSalary + s.financials.totalAllowances
    ensures s.financials.totalSalary == ActiveSum(ms, true)
    ensures s.financials.totalAllowances == ActiveSum(ms, false)
  {
    var salary := ActiveSum(ms, true);
    var allowances := ActiveSum(ms, false);
    TeamStats(StatusCounts(ms), PositionCounts(ms), Financials(salary, allowances, salary + allowances))
  }

  lemma {:induction false} CompensationSplits(ms: seq<TeamMember>)
    ensures ActiveCompensation(ms) == ActiveSum(ms, true) + ActiveSum(ms, false)
  {
    if |ms| > 0 {
      CompensationSplits(ms[1..]);
    }
  }

  /** The team's total compensation is the sum of the active members' own
      `getTotalCompensation()`. */
  lemma TeamCompensationIsSumOfMembers(ms: seq<TeamMember>)
    ensures GetTeamStats(ms).financials.totalCompensation == ActiveCompensation(ms)
  {
    CompensationSplits(ms);
  }
}
