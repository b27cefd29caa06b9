/** The request gates of middleware/auth.js: the account checks after token
    verification, role lists, the ownership rule, the permission table and
    the per-user sliding-window rate limiter. Token signing and checking are
    foreign calls; each gate starts from the account the token named. */
module Authorization {
  import opened Common
  import opened Accounts

  /** What a gate does with the request: pass it on, or answer with a code. */
  datatype Gate = Next | Reject(code: int, message: string)

  /** `req.user` as the gates read it; the role is the column's text. */
  datatype Principal = Principal(id: Id, userId: Option<Id>, role: string)

  function PrincipalOf(a: Account): (p: Principal)
    ensures p.id == a.id && p.userId == a.userId && p.role == RoleName(a.role)
  {
    Principal(a.id, a.userId, RoleName(a.role))
  }

  /** `authenticateToken` after the token checked out: the account it names
      must exist, be active and not be locked. */
  function Authenticate(found: Option<Account>, now: int): (g: Gate)
    ensures g == Next <==> found.Some? && CanLogin(found.value, now)
    ensures g != Next ==> g.Reject? && g.code == 401
  {
    if found.None? then Reject(401, "Invalid token - user not found")
    else if !found.value.isActive then Reject(401, "Account is deactivated")
    else if IsLocked(found.value, now) then
      Reject(401, "Account is temporarily locked due to too many failed login attempts")
    else Next
  }

  /** `optionalAuth` after the token checked out: the user is attached only
      when it exists, is active and is not locked; the request always goes on. */
  function OptionalAuth(found: Option<Account>, now: int): (user: Option<Principal>)
    ensures user.Some? <==> found.Some? && found.value.isActive && !IsLocked(found.value, now)
    ensures user.Some? ==> user.value == PrincipalOf(found.value)
  {
    if found.Some? && found.value.isActive && !IsLocked(found.value, now) then Some(PrincipalOf(found.value))
    else None
  }

  /** The two authentications agree on who gets through. */
  lemma OptionalAuthAgreesWithAuthenticate(found: Option<Account>, now: int)
    ensures OptionalAuth(found, now).Some? <==> Authenticate(found, now) == Next
  {
  }

  /** `authorizeRoles(...roles)`. */
  function AuthorizeRoles(roles: seq<string>, user: Option<Principal>): (g: Gate)
    ensures g == Next <==> user.Some? && user.value.role in roles
    ensures g.Reject? && g.code == 401 <==> user.None?
    ensures g.Reject? && g.code == 403 <==> user.Some? && user.value.role !in roles
  {
    if user.None? then Reject(401, "Authentication required")
    else if user.value.role !in roles then Reject(403, "Access denied. Required roles: " + Join(roles, ", "))
    else Next
  }

  function RequireChairman(user: Option<Principal>): Gate {
    AuthorizeRoles(["Chairman"], user)
  }

  function RequireSecretaryOrChairman(user: Option<Principal>): Gate {
    AuthorizeRoles(["Secretary", "Chairman"], user)
  }

  function RequireManagement(user: Option<Principal>): Gate {
    AuthorizeRoles(["Office Manager", "Secretary", "Chairman"], user)
  }

  /** The three fixed role gates are nested: whoever passes a stricter one
      passes the looser ones. */
  lemma RoleGatesAreNested(user: Option<Principal>)
    ensures RequireChairman(user) == Next ==> RequireSecretaryOrChairman(user) == Next
    ensures RequireSecretaryOrChairman(user) == Next ==> RequireManagement(user) == Next
    ensures RequireManagement(user) == Next <==> user.Some? && user.value.role in ["Office Manager", "Secretary", "Chairman"]
  {
  }

  const ManagementRoles: seq<string> := ["Chairman", "Secretary", "Office Manager"]

  /** A value of the request body as `===` sees it: absent (`undefined`),
      `null`, a string, or any other JSON value (a number, a boolean, an
      object), which equals neither a string nor `null`. */
  datatype BodyValue = Undefined | Null | Text(s: string) | OtherValue

  /** `req.params.userId || req.params.id || req.body.userId`: the first
      truthy route parameter, else the body's value, whatever it is. Route
      parameters are strings or absent. */
  function ResourceUserId(paramUserId: Option<string>, paramId: Option<string>, bodyUserId: BodyValue): (r: BodyValue)
    ensures Given(paramUserId) ==> r == Text(paramUserId.value)
    ensures !Given(paramUserId) && Given(paramId) ==> r == Text(paramId.value)
    ensures !Given(paramUserId) && !Given(paramId) ==> r == bodyUserId
  {
    if Given(paramUserId) then Text(paramUserId.value)
    else if Given(paramId) then Text(paramId.value)
    else bodyUserId
  }

  /** A truthy route parameter decides the target; the body is then never read. */
  lemma ParamsOverrideBody(paramUserId: Option<string>, paramId: Option<string>, b1: BodyValue, b2: BodyValue)
    requires Given(paramUserId) || Given(paramId)
    ensures ResourceUserId(paramUserId, paramId, b1) == ResourceUserId(paramUserId, paramId, b2)
    ensures ResourceUserId(paramUserId, paramId, b1).Text?
  {
  }

  /** `column === value` for a nullable string column, `None` being `null`. */
  predicate StrictEquals(column: Option<string>, value: BodyValue) {
    match value
    case Null => column.None?
    case Text(t) => column == Some(t)
    case _ => false
  }

  /** `requireOwnershipOrManagement`. The member link of an account is
      nullable, and `null === null` holds, so an unlinked account owns a
      body `userId` of `null`. */
  function RequireOwnershipOrManagement(user: Option<Principal>, paramUserId: Option<string>,
                                        paramId: Option<string>, bodyUserId: BodyValue): (g: Gate)
    ensures user.None? <==> g.Reject? && g.code == 401
    ensures user.Some? && user.value.role in ManagementRoles ==> g == Next
    ensures user.Some? && user.value.role !in ManagementRoles ==>
              var target := ResourceUserId(paramUserId, paramId, bodyUserId);
              (g == Next <==>
                 || target == Text(user.value.id)
                 || (user.value.userId.Some? && target == Text(user.value.userId.value))
                 || (user.value.userId.None? && target == Null))
    ensures g.Reject? ==> g.code == 401 || g.code == 403
  {
    if user.None? then Reject(401, "Authentication required")
    else if user.value.role in ManagementRoles then Next
    else
      var target := ResourceUserId(paramUserId, paramId, bodyUserId);
      if StrictEquals(Some(user.value.id), target) || StrictEquals(user.value.userId, target) then Next
      else Reject(403, "Access denied. You can only access your own data.")
  }

  /** Outside management: a member passes on its own account id or member id
      in the route whatever the body says; a route parameter naming someone
      else is refused whatever the body says; and with no route parameter an
      account without a member link passes on a body `userId` of `null`. */
  lemma OwnershipDecisions(id: Id, userId: Option<Id>, role: string, paramUserId: Option<string>,
                           paramId: Option<string>, body: BodyValue)
    requires role !in ManagementRoles
    ensures Given(paramUserId) && (paramUserId.value == id || Some(paramUserId.value) == userId) ==>
              RequireOwnershipOrManagement(Some(Principal(id, userId, role)), paramUserId, paramId, body) == Next
    ensures Given(paramUserId) && paramUserId.value != id && Some(paramUserId.value) != userId ==>
              RequireOwnershipOrManagement(Some(Principal(id, userId, role)), paramUserId, paramId, body).Reject?
    ensures !Given(paramUserId) && !Given(paramId) && userId.None? ==>
              RequireOwnershipOrManagement(Some(Principal(id, userId, role)), paramUserId, paramId, Null) == Next
    ensures !Given(paramUserId) && !Given(paramId) ==>
              RequireOwnershipOrManagement(Some(Principal(id, userId, role)), paramUserId, paramId, Undefined).Reject?
  {
  }

  /** The permission table of `hasPermission`; a role it does not list has
      no permission. */
  function RolePermissions(role: string): seq<string> {
    if role == "Chairman" then
      ["read:all", "write:all", "delete:all", "manage:users", "manage:goals", "manage:team", "approve:distributions"]
    else if role == "Secretary" then
      ["read:all", "write:all", "manage:attendance", "manage:inventory", "manage:distributions", "manage:users",
       "approve:distributions"]
    else if role == "Office Manager" then
      ["read:all", "write:team", "manage:team", "read:reports"]
    else if role == "Member" then
      ["read:own", "write:own"]
    else []
  }

  /** `hasPermission(permission)`: the role's list must hold the permission
      or the 'write:all' override. */
  function HasPermission(permission: string, user: Option<Principal>): (g: Gate)
    ensures g == Next <==>
              user.Some? && (permission in RolePermissions(user.value.role) || "write:all" in RolePermissions(user.value.role))
    ensures user.None? <==> g.Reject? && g.code == 401
    ensures user.Some? && g.Reject? ==> g.code == 403
  {
    if user.None? then Reject(401, "Authentication required")
    else
      var granted := RolePermissions(user.value.role);
      if permission !in granted && "write:all" !in granted then
        Reject(403, "Access denied. Required permission: " + permission)
      else Next
  }

  /** A principal's role comes from the account's role column, and every one
      of its spellings is a key of the permission table, so the table's
      fall-back to no permission is never reached from a stored account. */
  lemma AccountRolesAreTabled(a: Account)
    ensures PrincipalOf(a).role in ["Chairman", "Secretary", "Office Manager", "Member"]
    ensures |RolePermissions(PrincipalOf(a).role)| > 0
  {
  }

  /** Chairman and Secretary hold the override, so they pass every check; an
      account with a role the table does not list passes none; a Member
      holds exactly its own read and write. */
  lemma PermissionTableFacts(permission: string, id: Id, userId: Option<Id>, role: string)
    ensures role == "Chairman" || role == "Secretary" ==>
              HasPermission(permission, Some(Principal(id, userId, role))) == Next
    ensures role !in ["Chairman", "Secretary", "Office Manager", "Member"] ==>
              HasPermission(permission, Some(Principal(id, userId, role))).Reject?
    ensures role == "Member" ==>
              (HasPermission(permission, Some(Principal(id, userId, role))) == Next <==>
                 permission == "read:own" || permission == "write:own")
  {
    assert "write:all" != "read:own" && "write:all" != "write:own";
  }

  // ---- userRateLimit ----

  /** The limiter's memory: request times per user. */
  type Requests = map<Id, seq<int>>

  /** `userRequests.filter(time => time > windowStart)`. */
  function Recent(ts: seq<int>, windowStart: int): (r: seq<int>)
    ensures |r| <= |ts|
    ensures forall i :: 0 <= i < |r| ==> r[i] > windowStart
    ensures forall t :: t in r <==> t in ts && t > windowStart
  {
    if |ts| == 0 then []
    else (if ts[0] > windowStart then [ts[0]] else []) + Recent(ts[1..], windowStart)
  }

  const DefaultMaxRequests: int := 100
  const DefaultWindowMs: int := 15 * MinuteMs

  /** The limiter's answer and its memory afterwards. */
  datatype Limited = Limited(requests: Requests, gate: Gate)

  /** `userRateLimit(maxRequests, windowMs)` applied to one request at `now`. */
  function RateLimit(requests: Requests, user: Option<Principal>, now: int, maxRequests: int, windowMs: int): (l: Limited)
    ensures user.None? ==> l == Limited(requests, Next)
    ensures user.Some? ==>
              var id := user.value.id;
              var recent := Recent(if id in requests then requests[id] else [], now - windowMs);
              && l.requests.Keys == requests.Keys + {id}
              && (forall k :: k in requests && k != id ==> l.requests[k] == requests[k])
              // rejected exactly when the window is already full; a rejected
              // request is not recorded, an accepted one is
              && (l.gate.Reject? <==> |recent| >= maxRequests)
              && (l.gate.Reject? ==> l.gate.code == 429 && l.requests[id] == recent)
              && (l.gate == Next ==> l.requests[id] == recent + [now])
  {
    if user.None? then Limited(requests, Next)
    else
      var id := user.value.id;
      var recent := Recent(if id in requests then requests[id] else [], now - windowMs);
      if |recent| >= maxRequests then
        Limited(requests[id := recent], Reject(429, "Too many requests. Please try again later."))
      else Limited(requests[id := recent + [now]], Next)
  }

  /** `retryAfter`: the window in whole seconds, rounded up. */
  function RetryAfter(windowMs: int): (s: int)
    ensures (s - 1) * 1000 < windowMs <= s * 1000
  {
    CeilDiv(windowMs, 1000)
  }

  /** No user's memory ever holds more than `maxRequests` times. */
  predicate Bounded(requests: Requests, maxRequests: int) {
    forall k :: k in requests ==> |requests[k]| <= maxRequests
  }

  lemma RateLimitKeepsBound(requests: Requests, user: Option<Principal>, now: int, maxRequests: int, windowMs: int)
    requires maxRequests >= 0 && Bounded(requests, maxRequests)
    ensures Bounded(RateLimit(requests, user, now, maxRequests, windowMs).requests, maxRequests)
  {
  }

  /** One user's requests at the given times, through the limiter: the
      memory afterwards and the times that were let through. */
  function Run(requests: Requests, user: Principal, times: seq<int>, maxRequests: int, windowMs: int): (r: (Requests, seq<int>))
    requires windowMs > 0
    ensures |r.1| <= |times|
    decreases |times|
  {
    if |times| == 0 then (requests, [])
    else
      var l := RateLimit(requests, Some(user), times[0], maxRequests, windowMs);
      var rest := Run(l.requests, user, times[1..], maxRequests, windowMs);
      (rest.0, (if l.gate == Next then [times[0]] else []) + rest.1)
  }

  lemma {:induction false} RecentAppend(a: seq<int>, b: seq<int>, w: int)
    ensures Recent(a + b, w) == Recent(a, w) + Recent(b, w)
    decreases |a|
  {
    if |a| > 0 {
      RecentAppend(a[1..], b, w);
      assert (a + b)[1..] == a[1..] + b;
    } else {
      assert a + b == b;
    }
  }

  lemma {:induction false} RecentKeepsNewer(b: seq<int>, w: int)
    requires forall i :: 0 <= i < |b| ==> b[i] > w
    ensures Recent(b, w) == b
    decreases |b|
  {
    if |b| > 0 {
      RecentKeepsNewer(b[1..], w);
    }
  }

  /** What the limiter remembers of one user. */
  function Stored(requests: Requests, id: Id): seq<int> {
    if id in requests then requests[id] else []
  }

  /** Filtering a memory whose newer part lies inside the window keeps that
      part whole. */
  lemma RecentKeepsWindow(older: seq<int>, kept: seq<int>, w: int)
    requires forall i :: 0 <= i < |kept| ==> kept[i] > w
    ensures Recent(older + kept, w) == Recent(older, w) + kept
  {
    RecentAppend(older, kept, w);
    RecentKeepsNewer(kept, w);
  }

  /** One request of a run: the memory keeps its older part filtered and the
      requests of the current window in order, adding this one if accepted. */
  lemma RateLimitStep(requests: Requests, user: Principal, now: int, maxRequests: int, windowMs: int,
                      older: seq<int>, kept: seq<int>)
    requires windowMs > 0 && Stored(requests, user.id) == older + kept
    requires forall i :: 0 <= i < |kept| ==> kept[i] > now - windowMs
    ensures var l := RateLimit(requests, Some(user), now, maxRequests, windowMs);
      Stored(l.requests, user.id) == Recent(older, now - windowMs) + (if l.gate == Next then kept + [now] else kept)
  {
    var w := now - windowMs;
    var l := RateLimit(requests, Some(user), now, maxRequests, windowMs);
    RecentKeepsWindow(older, kept, w);
    var recent := Recent(older, w) + kept;
    assert Recent(Stored(requests, user.id), w) == recent;
    assert Stored(l.requests, user.id) == l.requests[user.id];
    if l.gate == Next {
      assert l.requests[user.id] == recent + [now];
      assert recent + [now] == Recent(older, w) + (kept + [now]);
    } else {
      assert l.requests[user.id] == recent;
    }
  }

  /** The invariant of a run inside one window: the memory ends with every
      request accepted so far, and there are never more than the limit. */
  lemma {:induction false} RunRetainsAccepted(requests: Requests, user: Principal, times: seq<int>,
                                              maxRequests: int, windowMs: int, older: seq<int>, kept: seq<int>, first: int)
    requires windowMs > 0 && maxRequests >= 0
    requires Bounded(requests, maxRequests)
    requires forall i :: 0 <= i < |times| ==> first <= times[i] < first + windowMs
    requires forall i :: 0 <= i < |kept| ==> first <= kept[i] < first + windowMs
    requires Stored(requests, user.id) == older + kept
    ensures |kept| + |Run(requests, user, times, maxRequests, windowMs).1| <= maxRequests
    decreases |times|
  {
    if user.id in requests {
      assert |requests[user.id]| <= maxRequests;
    }
    if |times| > 0 {
      var now := times[0];
      var l := RateLimit(requests, Some(user), now, maxRequests, windowMs);
      assert forall i :: 0 <= i < |kept| ==> kept[i] > now - windowMs;
      RateLimitStep(requests, user, now, maxRequests, windowMs, older, kept);
      RateLimitKeepsBound(requests, Some(user), now, maxRequests, windowMs);
      var older' := Recent(older, now - windowMs);
      var rest := times[1..];
      assert forall i :: 0 <= i < |rest| ==> first <= rest[i] < first + windowMs by {
        forall i | 0 <= i < |rest| ensures first <= rest[i] < first + windowMs {
          assert rest[i] == times[i + 1];
        }
      }
      var run := Run(l.requests, user, rest, maxRequests, windowMs);
      assert Run(requests, user, times, maxRequests, windowMs).1 == (if l.gate == Next then [now] else []) + run.1;
      if l.gate == Next {
        RunRetainsAccepted(l.requests, user, rest, maxRequests, windowMs, older', kept + [now], first);
      } else {
        RunRetainsAccepted(l.requests, user, rest, maxRequests, windowMs, older', kept, first);
      }
    }
  }

  /** Within any one window the limiter accepts at most `maxRequests` of a
      user's requests, whatever it remembered before. */
  lemma AtMostMaxPerWindow(requests: Requests, user: Principal, times: seq<int>, maxRequests: int, windowMs: int, first: int)
    requires windowMs > 0 && maxRequests >= 0
    requires Bounded(requests, maxRequests)
    requires forall i :: 0 <= i < |times| ==> first <= times[i] < first + windowMs
    ensures |Run(requests, user, times, maxRequests, windowMs).1| <= maxRequests
  {
    assert Stored(requests, user.id) == Stored(requests, user.id) + [];
    RunRetainsAccepted(requests, user, times, maxRequests, windowMs, Stored(requests, user.id), [], first);
  }

  /** `userRateLimit()` with its defaults: at most 100 of a user's requests
      are let through in any 15 minutes, and a refusal asks the client to
      retry after 900 seconds. */
  lemma DefaultLimiterAllowsHundredPerQuarterHour(user: Principal, times: seq<int>, first: int)
    requires forall i :: 0 <= i < |times| ==> first <= times[i] < first + 15 * 60 * 1000
    ensures |Run(map[], user, times, DefaultMaxRequests, DefaultWindowMs).1| <= 100
    ensures RetryAfter(DefaultWindowMs) == 900
  {
    AtMostMaxPerWindow(map[], user, times, DefaultMaxRequests, DefaultWindowMs, first);
  }
}
