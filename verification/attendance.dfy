/** Attendance records (models/Attendance.js): the field bounds, the unique
    (member, month, year) slot, the hooks that keep a member's attendance
    counter in step with the records, the two marking methods, and the
    monthly and yearly zero-defaulted tallies. */
module AttendanceBook {
  import opened Common
  import opened Tally
  import opened Members

  datatype AttStatus = Present | Absent | Late | Excused
  datatype DutyType = Regular | Special | Emergency | Maintenance

  datatype Attendance = Attendance(
    id: Id,
    userId: Id,
    attendanceDate: int,
    month: int,
    year: int,
    dutyType: DutyType,
    hours: real,
    verifiedBy: Option<Id>,
    status: AttStatus,
    notes: Option<string>)

  /** The column validators: month 1 to 12, year 2000 to 2100, hours from
      half an hour to a whole day. */
  predicate ValidFields(a: Attendance) {
    1 <= a.month <= 12 && 2000 <= a.year <= 2100 && 0.5 <= a.hours <= 24.0
  }

  /** Two records for the same member, month and year. */
  predicate SameSlot(a: Attendance, b: Attendance) {
    a.userId == b.userId && a.month == b.month && a.year == b.year
  }

  /** The unique index on (userId, month, year). */
  predicate Unique(rs: seq<Attendance>) {
    forall i, j :: 0 <= i < j < |rs| ==> !SameSlot(rs[i], rs[j])
  }

  /** The member table and the attendance table. */
  datatype Book = Book(users: map<Id, User>, records: seq<Attendance>)

  datatype Refusal = InvalidFields | DuplicateSlot
  datatype Outcome = Rejected(refusal: Refusal) | Stored(book: Book)

  /** Some record other than the i-th already holds the slot of `a`. */
  predicate SlotTaken(rs: seq<Attendance>, a: Attendance, except: int) {
    exists j :: 0 <= j < |rs| && j != except && SameSlot(rs[j], a)
  }

  /** Present records of member `uid`, counted from the end. */
  function PresentCount(rs: seq<Attendance>, uid: Id): nat
    decreases |rs|
  {
    if |rs| == 0 then 0
    else PresentCount(rs[..|rs| - 1], uid) + Hit(rs[|rs| - 1], uid)
  }

  function Hit(a: Attendance, uid: Id): nat {
    if a.userId == uid && a.status == Present then 1 else 0
  }

  /** The afterCreate hook: a present record adds one day to its member (when
      the member exists) and records the date; the member is then saved, so
      the category follows. */
  function AfterCreate(a: Attendance, users: map<Id, User>): (r: map<Id, User>)
    ensures r.Keys == users.Keys
    ensures forall k :: k in users && k != a.userId ==> r[k] == users[k]
    ensures a.userId in users && a.status == Present ==>
              && r[a.userId].totalAttendanceDays == users[a.userId].totalAttendanceDays + 1
              && r[a.userId].lastAttendanceDate == Some(a.attendanceDate)
              && r[a.userId] == BeforeSave(r[a.userId])
    ensures a.status != Present ==> r == users
  {
    if a.userId in users && a.status == Present then
      var u := users[a.userId];
      users[a.userId := BeforeSave(u.(totalAttendanceDays := u.totalAttendanceDays + 1,
                                      lastAttendanceDate := Some(a.attendanceDate)))]
    else users
  }

  /** `Attendance.create(a)`: the validators, then the unique index, then the
      insert and its hook. */
  function Create(b: Book, a: Attendance): (o: Outcome)
    ensures o == Rejected(InvalidFields) <==> !ValidFields(a)
    ensures o == Rejected(DuplicateSlot) <==> ValidFields(a) && SlotTaken(b.records, a, -1)
    ensures o.Stored? ==> o.book == Book(AfterCreate(a, b.users), b.records + [a])
    ensures o.Stored? && Unique(b.records) ==> Unique(o.book.records)
  {
    if !ValidFields(a) then Rejected(InvalidFields)
    else if SlotTaken(b.records, a, -1) then Rejected(DuplicateSlot)
    else Stored(Book(AfterCreate(a, b.users), b.records + [a]))
  }

  /** The afterUpdate hook: when the status changed, the member's counter is
      recounted from the records; otherwise nothing happens. */
  function AfterUpdate(a: Attendance, previous: AttStatus, records: seq<Attendance>, users: map<Id, User>): (r: map<Id, User>)
    ensures r.Keys == users.Keys
    ensures forall k :: k in users && k != a.userId ==> r[k] == users[k]
    ensures a.status == previous ==> r == users
    ensures a.status != previous && a.userId in users ==>
              && r[a.userId].totalAttendanceDays == PresentCount(records, a.userId)
              && r[a.userId] == BeforeSave(r[a.userId])
  {
    if a.status != previous && a.userId in users then
      users[a.userId := BeforeSave(users[a.userId].(totalAttendanceDays := PresentCount(records, a.userId)))]
    else users
  }

  /** `save()` of the i-th record as `next`. */
  function Update(b: Book, i: nat, next: Attendance): (o: Outcome)
    requires i < |b.records|
    ensures o == Rejected(InvalidFields) <==> !ValidFields(next)
    ensures o == Rejected(DuplicateSlot) <==> ValidFields(next) && SlotTaken(b.records, next, i)
    ensures o.Stored? ==>
              && o.book.records == b.records[i := next]
              && o.book.users == AfterUpdate(next, b.records[i].status, b.records[i := next], b.users)
    ensures o.Stored? && Unique(b.records) ==> Unique(o.book.records)
  {
    if !ValidFields(next) then Rejected(InvalidFields)
    else if SlotTaken(b.records, next, i) then Rejected(DuplicateSlot)
    else
      var records := b.records[i := next];
      Stored(Book(AfterUpdate(next, b.records[i].status, records, b.users), records))
  }

  /** `markPresent(verifiedBy)`. */
  function MarkPresent(a: Attendance, verifier: Option<Id>): (r: Attendance)
    ensures r.status == Present && r.verifiedBy == verifier
    ensures r.(status := a.status, verifiedBy := a.verifiedBy) == a
  {
    a.(status := Present, verifiedBy := verifier)
  }

  /** `markAbsent(verifiedBy, notes)`: the notes are replaced only when given. */
  function MarkAbsent(a: Attendance, verifier: Option<Id>, notes: Option<string>): (r: Attendance)
    ensures r.status == Absent && r.verifiedBy == verifier
    ensures r.notes == (if Given(notes) then notes else a.notes)
    ensures r.(status := a.status, verifiedBy := a.verifiedBy, notes := a.notes) == a
  {
    a.(status := Absent, verifiedBy := verifier, notes := if Given(notes) then notes else a.notes)
  }

  /** Every member's counter equals the number of that member's present records. */
  predicate Consistent(b: Book) {
    forall uid :: uid in b.users ==> b.users[uid].totalAttendanceDays == PresentCount(b.records, uid)
  }

  /** The stored records pass the validators and the unique index. */
  predicate WellFormed(b: Book) {
    Unique(b.records) && forall i :: 0 <= i < |b.records| ==> ValidFields(b.records[i])
  }

  lemma PresentCountAppend(rs: seq<Attendance>, a: Attendance, uid: Id)
    ensures PresentCount(rs + [a], uid) == PresentCount(rs, uid) + Hit(a, uid)
  {
    assert (rs + [a])[..|rs|] == rs;
  }

  lemma {:induction false} PresentCountUpdate(rs: seq<Attendance>, i: nat, a: Attendance, uid: Id)
    requires i < |rs|
    ensures PresentCount(rs[i := a], uid) == PresentCount(rs, uid) - Hit(rs[i], uid) + Hit(a, uid)
    decreases |rs|
  {
    var n := |rs| - 1;
    if i == n {
      assert rs[i := a][..n] == rs[..n];
    } else {
      PresentCountUpdate(rs[..n], i, a, uid);
      assert rs[i := a][..n] == rs[..n][i := a];
    }
  }

  /** Creating a record keeps every member's counter in step. */
  lemma CreateKeepsCountersConsistent(b: Book, a: Attendance)
    requires Consistent(b)
    ensures Create(b, a).Stored? ==> Consistent(Create(b, a).book)
  {
    if Create(b, a).Stored? {
      forall uid | uid in b.users
        ensures PresentCount(b.records + [a], uid) == PresentCount(b.records, uid) + Hit(a, uid)
      {
        PresentCountAppend(b.records, a, uid);
      }
    }
  }

  /** Updating a record keeps every member's counter in step, provided the
      record stays with its member. */
  lemma UpdateKeepsCountersConsistent(b: Book, i: nat, next: Attendance)
    requires Consistent(b)
    requires i < |b.records| && next.userId == b.records[i].userId
    ensures Update(b, i, next).Stored? ==> Consistent(Update(b, i, next).book)
  {
    if Update(b, i, next).Stored? {
      forall uid | uid in b.users
        ensures PresentCount(b.records[i := next], uid) == PresentCount(b.records, uid) - Hit(b.records[i], uid) + Hit(next, uid)
      {
        PresentCountUpdate(b.records, i, next, uid);
      }
    }
  }

  /** Moving a present record to another member without changing its status
      runs no recount, so the first member's counter is left one too high
      and the second member's, when that member exists, one too low. */
  lemma ReassigningPresentRecordDesyncs(b: Book, i: nat, next: Attendance)
    requires Consistent(b)
    requires i < |b.records| && b.records[i].status == Present && next.status == Present
    requires next.userId != b.records[i].userId && b.records[i].userId in b.users
    ensures var o := Update(b, i, next);
      o.Stored? ==>
        o.book.users[b.records[i].userId].totalAttendanceDays
        == PresentCount(o.book.records, b.records[i].userId) + 1
    ensures var o := Update(b, i, next);
      o.Stored? && next.userId in b.users ==>
        o.book.users[next.userId].totalAttendanceDays
        == PresentCount(o.book.records, next.userId) - 1
  {
    PresentCountUpdate(b.records, i, next, b.records[i].userId);
    PresentCountUpdate(b.records, i, next, next.userId);
  }

  /** Marking a stored record is never refused: only its status, verifier
      and notes change, so it keeps its valid fields and its slot. */
  lemma MarkingIsNeverRefused(b: Book, i: nat, verifier: Option<Id>, notes: Option<string>)
    requires WellFormed(b) && i < |b.records|
    ensures Update(b, i, MarkPresent(b.records[i], verifier)).Stored?
    ensures Update(b, i, MarkAbsent(b.records[i], verifier, notes)).Stored?
  {
    var a := b.records[i];
    forall j | 0 <= j < |b.records| && j != i ensures !SameSlot(b.records[j], a) {
      if j < i {
        assert !SameSlot(b.records[j], b.records[i]);
      } else {
        assert !SameSlot(b.records[i], b.records[j]);
      }
    }
  }

  // ---- getMonthlyStats / getYearlyStats ----

  const AllStatuses: set<AttStatus> := {Present, Absent, Late, Excused}

  /** The statuses of the records of one month, in order. */
  function StatusesIn(rs: seq<Attendance>, year: int, month: int): (ss: seq<AttStatus>)
    ensures |ss| <= |rs|
  {
    if |rs| == 0 then []
    else (if rs[0].year == year && rs[0].month == month then [rs[0].status] else []) + StatusesIn(rs[1..], year, month)
  }

  /** The number of records of one month with status `s`. */
  function CountIn(rs: seq<Attendance>, year: int, month: int, s: AttStatus): nat {
    if |rs| == 0 then 0
    else (if rs[0].year == year && rs[0].month == month && rs[0].status == s then 1 else 0)
         + CountIn(rs[1..], year, month, s)
  }

  lemma {:induction false} StatusesInCount(rs: seq<Attendance>, year: int, month: int, s: AttStatus)
    ensures multiset(StatusesIn(rs, year, month))[s] == CountIn(rs, year, month, s)
  {
    if |rs| > 0 {
      StatusesInCount(rs[1..], year, month, s);
      var head := if rs[0].year == year && rs[0].month == month then [rs[0].status] else [];
      assert multiset(head + StatusesIn(rs[1..], year, month)) == multiset(head) + multiset(StatusesIn(rs[1..], year, month));
    }
  }

  lemma MonthlyTally(rs: seq<Attendance>, year: int, month: int)
    ensures var m := Defaulted(AllStatuses, StatusesIn(rs, year, month));
      m.Keys == AllStatuses && forall s :: s in m ==> m[s] == CountIn(rs, year, month, s)
  {
    var ks := StatusesIn(rs, year, month);
    assert forall i :: 0 <= i < |ks| ==> ks[i] in AllStatuses by {
      forall i | 0 <= i < |ks| ensures ks[i] in AllStatuses {
        assert ks[i].Present? || ks[i].Absent? || ks[i].Late? || ks[i].Excused?;
      }
    }
    var m := Defaulted(AllStatuses, ks);
    forall s | s in m ensures m[s] == CountIn(rs, year, month, s) {
      StatusesInCount(rs, year, month, s);
    }
  }

  /** `getMonthlyStats(year, month)`: all four statuses present, each
      counting that month's records with it, 0 when there are none. */
  function GetMonthlyStats(rs: seq<Attendance>, year: int, month: int): (m: map<AttStatus, nat>)
    ensures m.Keys == AllStatuses
    ensures forall s :: s in m ==> m[s] == CountIn(rs, year, month, s)
  {
    MonthlyTally(rs, year, month);
    Defaulted(AllStatuses, StatusesIn(rs, year, month))
  }

  type Grid = map<int, map<AttStatus, nat>>

  /** Months 1 to 12, each with all four statuses at 0. */
  function EmptyGrid(): (g: Grid)
    ensures g.Keys == Range(1, 13)
  {
    map m | m in Range(1, 13) :: Zeroes(AllStatuses)
  }

  /** The forEach over the grouped rows, as a fold over the records of the
      year. A row whose month has no slot in the grid fails the lookup
      (`monthlyData[13]` is undefined), which throws. */
  function YearFold(g: Grid, rs: seq<Attendance>, year: int): Option<Grid> {
    if |rs| == 0 then Some(g)
    else
      var r := rs[0];
      if r.year != year then YearFold(g, rs[1..], year)
      else if r.month !in g then None
      else YearFold(g[r.month := Bump(g[r.month], r.status)], rs[1..], year)
  }

  /** Along the fold, each month's entry is its start tally folded over that
      month's statuses, and the months stay the same. */
  lemma {:induction false} YearFoldTallies(g: Grid, rs: seq<Attendance>, year: int)
    requires forall i :: 0 <= i < |rs| && rs[i].year == year ==> rs[i].month in g
    ensures YearFold(g, rs, year).Some?
    ensures YearFold(g, rs, year).value.Keys == g.Keys
    ensures forall m :: m in g ==> YearFold(g, rs, year).value[m] == Fold(g[m], StatusesIn(rs, year, m))
  {
    if |rs| > 0 {
      var r := rs[0];
      var g' := if r.year != year then g else g[r.month := Bump(g[r.month], r.status)];
      YearFoldTallies(g', rs[1..], year);
      forall m | m in g ensures YearFold(g, rs, year).value[m] == Fold(g[m], StatusesIn(rs, year, m)) {
        var rest := StatusesIn(rs[1..], year, m);
        if r.year == year && r.month == m {
          var ss := StatusesIn(rs, year, m);
          assert ss == [r.status] + rest;
          assert ss[0] == r.status && ss[1..] == rest;
        } else {
          assert StatusesIn(rs, year, m) == rest;
        }
      }
    }
  }

  /** A record of the year whose month has no slot makes the fold fail. */
  lemma {:induction false} YearFoldFails(g: Grid, rs: seq<Attendance>, year: int, i: nat)
    requires i < |rs| && rs[i].year == year && rs[i].month !in g
    ensures YearFold(g, rs, year).None?
  {
    var r := rs[0];
    if i > 0 {
      var g' := if r.year != year || r.month !in g then g else g[r.month := Bump(g[r.month], r.status)];
      if r.year != year || r.month in g {
        YearFoldFails(g', rs[1..], year, i - 1);
      }
    }
  }

  /** `getYearlyStats(year)`: exactly the months 1 to 12, each month the same
      tally `getMonthlyStats` gives for it; it throws when a record of the
      year has a month outside 1 to 12. */
  function GetYearlyStats(rs: seq<Attendance>, year: int): (r: Option<Grid>)
    ensures r.Some? <==> forall i :: 0 <= i < |rs| && rs[i].year == year ==> 1 <= rs[i].month <= 12
    ensures r.Some? ==> r.value.Keys == Range(1, 13)
    ensures r.Some? ==> forall m :: 1 <= m <= 12 ==> r.value[m] == GetMonthlyStats(rs, year, m)
  {
    YearlyTally(rs, year);
    YearFold(EmptyGrid(), rs, year)
  }

  lemma YearlyTally(rs: seq<Attendance>, year: int)
    ensures var r := YearFold(EmptyGrid(), rs, year);
      && (r.Some? <==> forall i :: 0 <= i < |rs| && rs[i].year == year ==> 1 <= rs[i].month <= 12)
      && (r.Some? ==> r.value.Keys == Range(1, 13))
      && (r.Some? ==> forall m :: 1 <= m <= 12 ==> r.value[m] == GetMonthlyStats(rs, year, m))
  {
    var g := EmptyGrid();
    if forall i :: 0 <= i < |rs| && rs[i].year == year ==> 1 <= rs[i].month <= 12 {
      YearFoldTallies(g, rs, year);
      var r := YearFold(g, rs, year).value;
      forall m | 1 <= m <= 12 ensures r[m] == GetMonthlyStats(rs, year, m) {
        assert m in g;
        assert r[m] == Fold(Zeroes(AllStatuses), StatusesIn(rs, year, m));
      }
    } else {
      var i :| 0 <= i < |rs| && rs[i].year == year && !(1 <= rs[i].month <= 12);
      YearFoldFails(g, rs, year, i);
    }
  }
}
