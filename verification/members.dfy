/** The member record (models/User.js): the save hook that re-derives the
    category from attendance days, the two instance methods, and the two
    zero-defaulted tallies over active members. */
module Members {
  import opened Common
  import opened Tally
  import opened CategoryCalculator

  datatype MemberStatus = Active | Passive

  datatype User = User(
    id: Id,
    cardNumber: string,
    fullName: string,
    grandfatherName: string,
    contactNumber: Option<string>,
    joinedDate: int,
    category: Category,
    status: MemberStatus,
    totalAttendanceDays: int,
    lastAttendanceDate: Option<int>,
    isActive: bool,
    notes: Option<string>)

  /** The beforeSave hook: the category always follows the attendance days,
      whatever the caller set. */
  function BeforeSave(u: User): (r: User)
    ensures r.(category := u.category) == u
    ensures r.category == A <==> u.totalAttendanceDays >= 75
    ensures r.category == B <==> 35 < u.totalAttendanceDays < 75
    ensures r.category == C <==> u.totalAttendanceDays <= 35
  {
    u.(category := CategoryOf(u.totalAttendanceDays as real))
  }

  /** A category set by the caller never survives a save. */
  lemma CallerCategoryIsOverwritten(u: User, c: Category)
    ensures BeforeSave(u.(category := c)) == BeforeSave(u)
  {
  }

  /** The hook and the calculator agree on every day count. */
  lemma HookAgreesWithCalculator(u: User)
    ensures BeforeSave(u).category == GetCategoryByAttendance(Some(u.totalAttendanceDays as real))
  {
  }

  /** `updateCategory()`: the same thresholds, then a save. */
  function UpdateCategory(u: User): (r: User)
    ensures r == BeforeSave(u)
    ensures r.status == u.status && r.totalAttendanceDays == u.totalAttendanceDays
  {
    var chosen := if u.totalAttendanceDays >= 75 then A else if u.totalAttendanceDays > 35 then B else C;
    BeforeSave(u.(category := chosen))
  }

  /** `updateStatus()`: only a save; the status stays as it was. */
  function UpdateStatus(u: User): (r: User)
    ensures r.status == u.status
    ensures r == BeforeSave(u)
  {
    BeforeSave(u)
  }

  /** The categories of the active members, in order. */
  function ActiveCategories(us: seq<User>): (cs: seq<Category>)
    ensures |cs| <= |us|
  {
    if |us| == 0 then []
    else (if us[0].isActive then [us[0].category] else []) + ActiveCategories(us[1..])
  }

  function ActiveStatuses(us: seq<User>): (ss: seq<MemberStatus>)
    ensures |ss| <= |us|
  {
    if |us| == 0 then []
    else (if us[0].isActive then [us[0].status] else []) + ActiveStatuses(us[1..])
  }

  /** The number of active members. */
  function ActiveCount(us: seq<User>): nat {
    if |us| == 0 then 0 else (if us[0].isActive then 1 else 0) + ActiveCount(us[1..])
  }

  /** The number of active members in category `c`. */
  function InCategory(us: seq<User>, c: Category): nat {
    if |us| == 0 then 0
    else (if us[0].isActive && us[0].category == c then 1 else 0) + InCategory(us[1..], c)
  }

  function WithStatus(us: seq<User>, s: MemberStatus): nat {
    if |us| == 0 then 0
    else (if us[0].isActive && us[0].status == s then 1 else 0) + WithStatus(us[1..], s)
  }

  lemma {:induction false} ActiveCategoriesCount(us: seq<User>, c: Category)
    ensures multiset(ActiveCategories(us))[c] == InCategory(us, c)
  {
    if |us| > 0 {
      ActiveCategoriesCount(us[1..], c);
      var head := if us[0].isActive then [us[0].category] else [];
      assert multiset(head + ActiveCategories(us[1..])) == multiset(head) + multiset(ActiveCategories(us[1..]));
    }
  }

  lemma {:induction false} ActiveStatusesCount(us: seq<User>, s: MemberStatus)
    ensures multiset(ActiveStatuses(us))[s] == WithStatus(us, s)
  {
    if |us| > 0 {
      ActiveStatusesCount(us[1..], s);
      var head := if us[0].isActive then [us[0].status] else [];
      assert multiset(head + ActiveStatuses(us[1..])) == multiset(head) + multiset(ActiveStatuses(us[1..]));
    }
  }

  /** `getCategoryStats()`: every category present, each counting the active
      members in it, 0 when there are none. */
  function GetCategoryStats(us: seq<User>): (m: map<Category, nat>)
    ensures m.Keys == {A, B, C}
    ensures forall c :: c in m ==> m[c] == InCategory(us, c)
  {
    CategoryTally(us);
    Defaulted({A, B, C}, ActiveCategories(us))
  }

  lemma CategoryTally(us: seq<User>)
    ensures var m := Defaulted({A, B, C}, ActiveCategories(us));
      m.Keys == {A, B, C} && forall c :: c in m ==> m[c] == InCategory(us, c)
  {
    var ks := ActiveCategories(us);
    assert forall i :: 0 <= i < |ks| ==> ks[i] in {A, B, C} by {
      forall i | 0 <= i < |ks| ensures ks[i] in {A, B, C} {
        assert ks[i].A? || ks[i].B? || ks[i].C?;
      }
    }
    var m := Defaulted({A, B, C}, ks);
    forall c | c in m ensures m[c] == InCategory(us, c) {
      ActiveCategoriesCount(us, c);
    }
  }

  /** `getStatusStats()`: both statuses present, each counting the active
      members with it. */
  function GetStatusStats(us: seq<User>): (m: map<MemberStatus, nat>)
    ensures m.Keys == {Active, Passive}
    ensures forall s :: s in m ==> m[s] == WithStatus(us, s)
  {
    var ks := ActiveStatuses(us);
    assert forall i :: 0 <= i < |ks| ==> ks[i] in {Active, Passive} by {
      forall i | 0 <= i < |ks| ensures ks[i] in {Active, Passive} {
        assert ks[i].Active? || ks[i].Passive?;
      }
    }
    var m := Defaulted({Active, Passive}, ks);
    assert forall s :: s in m ==> m[s] == WithStatus(us, s) by {
      forall s | s in m ensures m[s] == WithStatus(us, s) {
        ActiveStatusesCount(us, s);
      }
    }
    m
  }

  lemma {:induction false} CategoriesPartitionActive(us: seq<User>)
    ensures InCategory(us, A) + InCategory(us, B) + InCategory(us, C) == ActiveCount(us)
  {
    if |us| > 0 {
      CategoriesPartitionActive(us[1..]);
    }
  }

  lemma {:induction false} StatusesPartitionActive(us: seq<User>)
    ensures WithStatus(us, Active) + WithStatus(us, Passive) == ActiveCount(us)
  {
    if |us| > 0 {
      StatusesPartitionActive(us[1..]);
    }
  }

  /** The three category counts add up to the number of active members, and
      so do the two status counts. */
  lemma StatsCoverActiveMembers(us: seq<User>)
    ensures var m := GetCategoryStats(us); m[A] + m[B] + m[C] == ActiveCount(us)
    ensures var m := GetStatusStats(us); m[Active] + m[Passive] == ActiveCount(us)
  {
    CategoriesPartitionActive(us);
    StatusesPartitionActive(us);
  }
}
