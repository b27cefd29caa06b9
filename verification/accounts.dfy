/** Staff login accounts (models/AuthUser.js): the failed-login counter and
    its time lock, the login bookkeeping, the public view that hides the
    secrets, and the per-role tally. Password hashing is a foreign call and
    the stored password is an opaque string here. */
module Accounts {
  import opened Common
  import opened Tally

  datatype Role = Chairman | Secretary | Member | OfficeManager

  /** The role as the ENUM column spells it. */
  function RoleName(r: Role): (s: string)
    ensures s == "Chairman" <==> r == Chairman
    ensures s == "Secretary" <==> r == Secretary
    ensures s == "Member" <==> r == Member
    ensures s == "Office Manager" <==> r == OfficeManager
  {
    match r
    case Chairman => "Chairman"
    case Secretary => "Secretary"
    case Member => "Member"
    case OfficeManager => "Office Manager"
  }

  datatype Account = Account(
    id: Id,
    username: string,
    email: string,
    password: string,
    role: Role,
    fullName: string,
    contactNumber: Option<string>,
    isActive: bool,
    lastLoginAt: Option<int>,
    passwordResetToken: Option<string>,
    passwordResetExpires: Option<int>,
    loginAttempts: int,
    lockUntil: Option<int>,
    userId: Option<Id>)

  /** Failed logins that trigger the lock, and how long it lasts. */
  const MaxAttempts: int := 5
  const LockMs: int := 30 * MinuteMs

  /** `updateLastLogin()`: stamps the login and clears the counter and lock. */
  function UpdateLastLogin(a: Account, now: int): (r: Account)
    ensures r.lastLoginAt == Some(now) && r.loginAttempts == 0 && r.lockUntil.None?
    ensures r.(lastLoginAt := a.lastLoginAt, loginAttempts := a.loginAttempts, lockUntil := a.lockUntil) == a
  {
    a.(lastLoginAt := Some(now), loginAttempts := 0, lockUntil := None)
  }

  /** `resetLoginAttempts()`. */
  function ResetLoginAttempts(a: Account): (r: Account)
    ensures r.loginAttempts == 0 && r.lockUntil.None?
    ensures r.(loginAttempts := a.loginAttempts, lockUntil := a.lockUntil) == a
  {
    a.(loginAttempts := 0, lockUntil := None)
  }

  /** `incrementLoginAttempts()`: one more failure; reaching five with no lock
      set locks the account for 30 minutes. A lock already set, even one
      that has run out, is left as it is. */
  function IncrementLoginAttempts(a: Account, now: int): (r: Account)
    ensures r.loginAttempts == a.loginAttempts + 1
    ensures a.lockUntil.Some? ==> r.lockUntil == a.lockUntil
    ensures a.lockUntil.None? ==>
              r.lockUntil == (if a.loginAttempts + 1 >= MaxAttempts then Some(now + LockMs) else None)
    ensures r.(loginAttempts := a.loginAttempts, lockUntil := a.lockUntil) == a
  {
    var counted := a.(loginAttempts := a.loginAttempts + 1);
    if counted.loginAttempts >= MaxAttempts && counted.lockUntil.None? then
      counted.(lockUntil := Some(now + LockMs))
    else counted
  }

  /** `isLocked()`: a lock is set and lies in the future. */
  predicate IsLocked(a: Account, now: int) {
    a.lockUntil.Some? && a.lockUntil.value > now
  }

  /** `canLogin()`. */
  predicate CanLogin(a: Account, now: int) {
    a.isActive && !IsLocked(a, now)
  }

  /** A run of failed logins at the given times. */
  function FailAll(a: Account, times: seq<int>): (r: Account)
    ensures r.loginAttempts == a.loginAttempts + |times|
    decreases |times|
  {
    if |times| == 0 then a else FailAll(IncrementLoginAttempts(a, times[0]), times[1..])
  }

  /** A lock once set is never moved by further failures: in particular a
      lock that has run out is never renewed, however many failures follow. */
  lemma {:induction false} LockIsNeverRenewed(a: Account, times: seq<int>)
    requires a.lockUntil.Some?
    ensures FailAll(a, times).lockUntil == a.lockUntil
    ensures forall now :: now >= a.lockUntil.value ==> !IsLocked(FailAll(a, times), now)
    decreases |times|
  {
    if |times| > 0 {
      LockIsNeverRenewed(IncrementLoginAttempts(a, times[0]), times[1..]);
    }
  }

  /** Starting unlocked, the failure that brings the counter to five sets the
      lock 30 minutes after its own time, and that lock stays. */
  lemma {:induction false} FifthFailureLocks(a: Account, times: seq<int>)
    requires a.lockUntil.None? && 0 <= a.loginAttempts < MaxAttempts
    requires a.loginAttempts + |times| >= MaxAttempts
    ensures FailAll(a, times).lockUntil == Some(times[MaxAttempts - 1 - a.loginAttempts] + LockMs)
    decreases |times|
  {
    var next := IncrementLoginAttempts(a, times[0]);
    if a.loginAttempts + 1 == MaxAttempts {
      LockIsNeverRenewed(next, times[1..]);
    } else {
      FifthFailureLocks(next, times[1..]);
    }
  }

  /** Right after the fifth failure the account cannot log in. */
  lemma FiveFailuresBlockLogin(a: Account, times: seq<int>)
    requires a.lockUntil.None? && a.loginAttempts == 0 && |times| == MaxAttempts
    ensures IsLocked(FailAll(a, times), times[MaxAttempts - 1])
    ensures !CanLogin(FailAll(a, times), times[MaxAttempts - 1])
  {
    FifthFailureLocks(a, times);
  }

  /** The view `toJSON()` gives: every column but the password, the reset
      token and its expiry, the attempt counter and the lock. */
  datatype PublicAccount = PublicAccount(
    id: Id,
    username: string,
    email: string,
    role: Role,
    fullName: string,
    contactNumber: Option<string>,
    isActive: bool,
    lastLoginAt: Option<int>,
    userId: Option<Id>)

  function ToJson(a: Account): (p: PublicAccount)
    ensures p.id == a.id && p.username == a.username && p.email == a.email && p.role == a.role
    ensures p.fullName == a.fullName && p.contactNumber == a.contactNumber && p.isActive == a.isActive
    ensures p.lastLoginAt == a.lastLoginAt && p.userId == a.userId
  {
    PublicAccount(a.id, a.username, a.email, a.role, a.fullName, a.contactNumber,
                  a.isActive, a.lastLoginAt, a.userId)
  }

  /** The view reveals nothing of the secrets: two accounts that differ only
      in them look the same. */
  lemma ToJsonHidesSecrets(a: Account, password: string, token: Option<string>, expires: Option<int>,
                           attempts: int, lock: Option<int>)
    ensures ToJson(a.(password := password, passwordResetToken := token, passwordResetExpires := expires,
                      loginAttempts := attempts, lockUntil := lock)) == ToJson(a)
  {
  }

  /** The roles of the active accounts, in order. */
  function ActiveRoles(accounts: seq<Account>): (rs: seq<Role>)
    ensures |rs| <= |accounts|
  {
    if |accounts| == 0 then []
    else (if accounts[0].isActive then [accounts[0].role] else []) + ActiveRoles(accounts[1..])
  }

  function WithRole(accounts: seq<Account>, r: Role): nat {
    if |accounts| == 0 then 0
    else (if accounts[0].isActive && accounts[0].role == r then 1 else 0) + WithRole(accounts[1..], r)
  }

  lemma {:induction false} ActiveRolesCount(accounts: seq<Account>, r: Role)
    ensures multiset(ActiveRoles(accounts))[r] == WithRole(accounts, r)
  {
    if |accounts| > 0 {
      ActiveRolesCount(accounts[1..], r);
      var head := if accounts[0].isActive then [accounts[0].role] else [];
      assert multiset(head + ActiveRoles(accounts[1..])) == multiset(head) + multiset(ActiveRoles(accounts[1..]));
    }
  }

  const AllRoles: set<Role> := {Chairman, Secretary, Member, OfficeManager}

  lemma RoleTally(accounts: seq<Account>)
    ensures var m := Defaulted(AllRoles, ActiveRoles(accounts));
      m.Keys == AllRoles && forall r :: r in m ==> m[r] == WithRole(accounts, r)
  {
    var ks := ActiveRoles(accounts);
    assert forall i :: 0 <= i < |ks| ==> ks[i] in AllRoles by {
      forall i | 0 <= i < |ks| ensures ks[i] in AllRoles {
        assert ks[i].Chairman? || ks[i].Secretary? || ks[i].Member? || ks[i].OfficeManager?;
      }
    }
    var m := Defaulted(AllRoles, ks);
    forall r | r in m ensures m[r] == WithRole(accounts, r) {
      ActiveRolesCount(accounts, r);
    }
  }

  /** `getRoleStats()`: all four roles present, each counting the active
      accounts with it, 0 when there are none. */
  function GetRoleStats(accounts: seq<Account>): (m: map<Role, nat>)
    ensures m.Keys == AllRoles
    ensures forall r :: r in m ==> m[r] == WithRole(accounts, r)
  {
    RoleTally(accounts);
    Defaulted(AllRoles, ActiveRoles(accounts))
  }
}
