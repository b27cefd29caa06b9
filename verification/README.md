# Wood distribution group: a Dafny model of its stock ledger and rules

This project models the core of a forest-group management service: a
Node/Express application on Sequelize that keeps the group's wood stock,
hands wood out to members, tracks members' monthly attendance and the
category it earns them, and guards its API with logins, roles, a per-user
rate limiter and request validators.

The primary core is the wood ledger:

- a **stock record** (`WoodInventory`) with three pools, available,
  allocated and distributed, moved by `updateQuantity` with floors at 0,
  and a save hook that derives the record's status from its stock,
  threshold and expiry;
- a **distribution record** (`WoodDistribution`) whose save hooks price it,
  date its approval, delivery and return, and move stock in the referenced
  stock record on a status change;
- the **creation handler** (`recordDistribution`), which checks stock and
  takes the quantity out of `available` when the record is made.

Each hook is a pure function; a save is the before-save hook followed, for
updates, by the after-update hook keyed on the previous and the new status.
Database aggregates are folds over a sequence of rows. DECIMAL amounts are
`real`, dates are integer milliseconds, nullable columns are `Option`.

The secondary cores are the member category rules, the attendance
counters and statistics, the login lockout, the role, ownership, permission
and rate-limit gates, the office staff and yearly-goal status stamps, the
error classes and production error mapping, the two pagination helpers and
the request validators.

The model follows the code as written, and several of its lemmas record
behaviour a tidy ledger would not have:

- cancelling or delivering a **pending** record moves no stock, although
  its quantity already left `available` at creation
  (`StockLedger.PendingCancelLeaks`, `StockLedger.PendingDeliveryIsUnbacked`);
- an expired login lock is never renewed by later failures, because the
  lock is only set when none is present (`Accounts.LockIsNeverRenewed`);
- moving a present attendance record to another member without changing
  its status leaves the old member's counter one too high and the new
  member's one too low
  (`AttendanceBook.ReassigningPresentRecordDesyncs`);
- an account with no member link passes the ownership gate on a request
  whose body `userId` is `null`, because its own `userId` is `null` too
  (`Authorization.OwnershipDecisions`);
- 360 days of service read as "0 years, 12 months"
  (`OfficeTeam.TwelveMonthsIsPossible`);
- the role list of `validateAuthUser` ('admin', 'manager', 'member') shares
  no value with the account roles (`RequestValidation.RoleListMissesAccountRoles`);
- the password pattern's lookaheads use `.`, which stops at a line
  terminator, so only the first line counts
  (`RequestValidation.PatternSeesOnlyFirstLine`);
- in production, a Sequelize validation error without its `errors` array,
  or a unique-constraint error with an empty one, makes the handler itself
  throw (`ErrorHandling.Translate`);
- `getPaginationMetadata` with a zero limit reports a next page forever
  (`ErrorHandling.ZeroLimitAlwaysHasNext`).

The modules follow the source files: `Common` and `Tally` (shared
helpers and defaulted counting maps), `WoodInventory`, `WoodDistribution`,
`DistributionController`, `StockLedger` (the ledger across records),
`CategoryCalculator`, `Members`, `AttendanceBook`, `Accounts`,
`Authorization`, `OfficeTeam`, `YearlyGoals`, `ErrorHandling`,
`Responses` and `RequestValidation`.

## Model

| member | source | states |
|---|---|---|
| CategoryCalculator.CategoryOf | utils/categoryCalculator.js:7-9 | 75 days or more is A, more than 35 (and under 75) is B, 35 or fewer is C, each as an if-and-only-if |
| CategoryCalculator.GetCategoryByAttendance | utils/categoryCalculator.js:4-10 | a missing or unparsable day count is category C; otherwise the threshold rule applies |
| CategoryCalculator.CategoryIsMonotone | utils/categoryCalculator.js:7-9 | more attendance days never give a lower category |
| CategoryCalculator.PresentMonths | utils/categoryCalculator.js:20-24 | a month is in the set exactly when some record of that year, marked 'Present', with a month, carries it |
| CategoryCalculator.IsActiveMember | utils/categoryCalculator.js:18-26 | a non-array argument is never active; otherwise active means twelve distinct present months |
| CategoryCalculator.ActiveIffEveryMonthPresent | utils/categoryCalculator.js:12-26 | when months lie in 1..12, being active is the same as having a presence in every one of the twelve months |
| CategoryCalculator.IgnoredRecordsDoNotCount | utils/categoryCalculator.js:22 | a record of another year, not 'Present', or without a month changes neither the month set nor the verdict |
| Members.BeforeSave | models/User.js:112-121 | the hook changes only the category, which follows the 75/35 thresholds on the stored day count |
| Members.CallerCategoryIsOverwritten | models/User.js:112-121 | whatever category the caller sets is replaced on save |
| Members.HookAgreesWithCalculator | models/User.js:114-120 | the save hook and the attendance calculator assign the same category |
| Members.UpdateCategory | models/User.js:140-149 | the method saves the thresholded category and keeps status and day count |
| Members.UpdateStatus | models/User.js:151-160 | the status is left as it was; the save only re-runs the category hook |
| Members.ActiveCategoriesCount | models/User.js:163-172 | the grouped query's count for a category is the number of active members in it |
| Members.GetCategoryStats | models/User.js:163-178 | all three categories are present and each counts the active members in it, 0 when none |
| Members.CategoryTally | models/User.js:174-177 | the reduce over the grouped rows, starting from A, B, C at 0, yields those counts |
| Members.GetStatusStats | models/User.js:180-195 | both statuses are present and each counts the active members with it |
| Members.StatsCoverActiveMembers | models/User.js:163-195 | the category counts and the status counts each add up to the number of active members |
| AttendanceBook.AfterCreate | models/Attendance.js:99-109 | a present record adds one day to its member's counter and dates the last attendance; nothing else changes, and a missing member or another status changes nothing |
| AttendanceBook.Create | models/Attendance.js:22-50 | a record failing the month, year or hours validators is refused, one whose member, month and year are taken is refused, otherwise it is appended and the hook runs; the unique index is kept |
| AttendanceBook.AfterUpdate | models/Attendance.js:110-129 | when the status changed, the member's counter becomes the number of that member's present records; otherwise nothing changes |
| AttendanceBook.Update | models/Attendance.js:80-84 | saving a record checks the validators and the unique index against the other records, then runs the update hook; the unique index is kept |
| AttendanceBook.MarkPresent | models/Attendance.js:148-152 | only the status (now 'Present') and the verifier change |
| AttendanceBook.MarkAbsent | models/Attendance.js:154-159 | the status becomes 'Absent' and the verifier is set; the notes change only when truthy notes are given |
| AttendanceBook.CreateKeepsCountersConsistent | models/Attendance.js:99-109 | creating a record keeps every member's counter equal to the number of that member's present records |
| AttendanceBook.UpdateKeepsCountersConsistent | models/Attendance.js:110-129 | updating a record of the same member keeps every counter equal to the number of present records |
| AttendanceBook.ReassigningPresentRecordDesyncs | models/Attendance.js:112-127 | moving a present record to another member without a status change runs no recount, so the first member's counter ends one too high and the second member's, when that member exists, one too low |
| AttendanceBook.MarkingIsNeverRefused | models/Attendance.js:148-159 | marking a stored record present or absent never trips a validator or the unique index |
| AttendanceBook.StatusesInCount | models/Attendance.js:162-171 | the grouped count for a status is the number of that month's records with it |
| AttendanceBook.GetMonthlyStats | models/Attendance.js:162-177 | all four statuses are present and each counts the records of that year and month with it |
| AttendanceBook.MonthlyTally | models/Attendance.js:173-176 | the reduce starting from all four statuses at 0 yields exactly those counts |
| AttendanceBook.EmptyGrid | models/Attendance.js:192-195 | the grid has the months 1 to 12 |
| AttendanceBook.YearFoldTallies | models/Attendance.js:197-199 | when every record of the year has a month in the grid, the forEach succeeds, keeps the months and tallies each month's statuses |
| AttendanceBook.YearFoldFails | models/Attendance.js:197-199 | a record of the year whose month has no grid entry makes the forEach fail |
| AttendanceBook.GetYearlyStats | models/Attendance.js:179-202 | the yearly grid exists exactly when every record of the year has a month from 1 to 12, and then each month equals the monthly statistics |
| AttendanceBook.YearlyTally | models/Attendance.js:179-202 | the grid built by the forEach agrees month by month with the monthly statistics, or fails on a month outside 1..12 |
| WoodInventory.DeriveStatus | models/WoodInventory.js:135-152 | expiry on or before now always gives 'Expired'; otherwise zero or less is 'Out of Stock', at most the threshold 'Low Stock', and above it only 'Out of Stock'/'Low Stock' reset to 'Available' while 'Reserved', 'Expired' and 'Available' are kept |
| WoodInventory.Save | models/WoodInventory.js:135-152 | saving changes nothing but the status, which the hook re-derives |
| WoodInventory.UpdateQuantity | models/WoodInventory.js:171-187 | allocate and distribute take the absolute change from available, floored at 0, and add it to their own pool; add and return raise available, return floors distributed at 0; any other type only saves; pools stay non-negative, the total is conserved when the change fits the pool it draws on, and a floor that bites creates exactly the shortfall |
| WoodInventory.SavedStatusMatchesPredicates | models/WoodInventory.js:135-195 | before expiry a saved record is 'Out of Stock' exactly when isOutOfStock holds, and 'Low Stock' exactly when isLowStock holds but isOutOfStock does not |
| WoodInventory.AllocationCountsTwiceInRemaining | models/WoodInventory.js:172-199 | an allocation lowers getRemainingQuantity by twice the allocated amount |
| WoodInventory.RunConservesWhenFloorsNeverBite | models/WoodInventory.js:171-187 | over any run of changes in which no floor bites, the batch holds its start total plus everything added |
| WoodInventory.RunNeverLosesStock | models/WoodInventory.js:171-187 | over any run of changes the pools stay non-negative and the batch never holds less than its start total plus everything added |
| WoodInventory.FindByTypeAndSize | models/WoodInventory.js:262-267 | nothing is found exactly when no record has that type and size with status 'Available'; otherwise the result is such a record with the earliest arrival date |
| WoodInventory.ExpiringFilter | models/WoodInventory.js:273-282 | keeps exactly the records whose expiry falls between now and the window's end and whose status is not 'Expired', each as often as stored, and no other |
| WoodInventory.SortByExpiry | models/WoodInventory.js:283 | the result is ordered by expiry date and is a permutation of its input |
| WoodInventory.GetExpiringItems | models/WoodInventory.js:269-285 | exactly the records expiring within the given days and not already 'Expired', earliest expiry first, each as often as stored |
| WoodDistribution.BeforeSave | models/WoodDistribution.js:161-181 | the total price becomes unit price times quantity when both are non-zero and is left alone otherwise; an unset approval, delivery or return date is stamped exactly when the status changed to the matching status, and a set one is never overwritten; nothing else changes |
| WoodDistribution.EffectOf | models/WoodDistribution.js:184-206 | Approved to Delivered moves allocated to distributed, entering Returned from any other status moves distributed to available, Approved to Cancelled moves allocated to available, and every other change (entering Approved or Pending, Delivered from elsewhere, no change) moves nothing |
| WoodDistribution.ApplyEffect | models/WoodDistribution.js:189-206 | each movement changes exactly its two pools, floors the drawn pool at 0 and re-derives the status; pools stay non-negative, and the total is conserved exactly when the drawn pool covers the quantity |
| WoodDistribution.AfterUpdate | models/WoodDistribution.js:182-209 | only the referenced stock record changes, by the selected movement; a missing record or a movement-free change leaves the table as it was |
| WoodDistribution.SaveUpdate | models/WoodDistribution.js:160-209 | a save runs the before-save hook with the status-changed flag, then the after-update hook against the previous status |
| WoodDistribution.Approve | models/WoodDistribution.js:240-246 | from any status the record becomes Approved with approver and date set, notes replaced only when given, and no stock moves |
| WoodDistribution.Deliver | models/WoodDistribution.js:248-254 | from any status the record becomes Delivered with distributor and date set; stock moves from allocated to distributed only when it was Approved |
| WoodDistribution.Cancel | models/WoodDistribution.js:256-260 | from any status the record becomes Cancelled, notes go to the approval notes when given, and stock returns from allocated only when it was Approved |
| WoodDistribution.MarkReturned | models/WoodDistribution.js:262-267 | from any status the record becomes Returned and dated, notes go to the distribution notes when given, and stock moves from distributed to available unless it was already Returned |
| WoodDistribution.ReapprovalMovesNoStock | models/WoodDistribution.js:184-189 | approving an approved record moves no stock and changes only approver, date, notes and total price |
| WoodDistribution.Window | models/WoodDistribution.js:282-287 | the date filter keeps exactly the records inside both bounds, each as often as stored, and all records when either bound is missing |
| WoodDistribution.GetDistributionStats | models/WoodDistribution.js:281-309 | one entry per status present in the window, each with that status's record count, quantity sum and price sum (missing prices adding 0) |
| WoodDistribution.AccumulateEntry | models/WoodDistribution.js:301-308 | the reduce adds each record's count, quantity and price to its status's entry |
| WoodDistribution.StatsCountAllRecords | models/WoodDistribution.js:281-309 | the five per-status counts add up to the number of records in the window |
| DistributionController.NewRecord | controllers/distributionController.js:24-30 | the created record carries the requested member, stock record and quantity, the acting user as distributor, the notes, status Pending and no dates or price |
| DistributionController.RecordDistribution | controllers/distributionController.js:7-40 | a falsy member, stock id or quantity (zero included) is a 400; an unknown stock id a 404; available below the quantity a 400, so asking for exactly what is available passes; a quantity under the 0.01 validator a 500; otherwise the record is created and exactly the quantity leaves the available pool, nothing else moving |
| DistributionController.WholeStockIsAccepted | controllers/distributionController.js:20-33 | a request for the whole available quantity is accepted, empties the pool and, before expiry, leaves the batch out of stock |
| DistributionController.RecordingKeepsPoolsNonNegative | controllers/distributionController.js:20-33 | a recorded request never drives a pool negative and lowers the batch's total by exactly the quantity |
| DistributionController.HttpStatusMatchesOutcome | controllers/distributionController.js:12-38 | 201 is answered only for a recorded request, 404 only for a missing stock record, 500 only for a refused insert |
| StockLedger.Perform | models/WoodDistribution.js:240-267 | each instance method sets its status on the record and keeps its quantity and stock reference |
| StockLedger.Act | models/WoodDistribution.js:240-267 | an instance method changes only the record it is applied to |
| StockLedger.Request | controllers/distributionController.js:7-40 | a request through the handler adds at most one record at the end and keeps the others |
| StockLedger.SumWhereUpdate | models/WoodDistribution.js:184-206 | replacing one record changes a per-status sum by the difference of the two records' shares |
| StockLedger.RequestKeepsHolding | controllers/distributionController.js:20-33 | a recorded request keeps the ledger healthy and the holding (available plus distributed plus what pending and approved records took) unchanged |
| StockLedger.OrderlyStepKeepsHolding | models/WoodDistribution.js:184-267 | approving a pending record, delivering or cancelling an approved one, and returning a delivered one keep the ledger healthy and the holding unchanged |
| StockLedger.PendingCancelLeaks | models/WoodDistribution.js:199-206 | cancelling a pending record moves no stock, so the holding drops by the quantity taken at creation |
| StockLedger.PendingDeliveryIsUnbacked | models/WoodDistribution.js:189-193 | delivering a pending record moves no stock yet counts the quantity as delivered, so the holding drops by it |
| Accounts.RoleName | models/AuthUser.js:39 | each role has its own column spelling, 'Office Manager' with its space |
| Accounts.UpdateLastLogin | models/AuthUser.js:135-140 | the login is stamped, the counter cleared and the lock removed; nothing else changes |
| Accounts.ResetLoginAttempts | models/AuthUser.js:155-159 | the counter is cleared and the lock removed; nothing else changes |
| Accounts.IncrementLoginAttempts | models/AuthUser.js:142-153 | the counter rises by exactly one; an existing lock is kept, and with none the lock is set to now plus 30 minutes exactly when the counter reaches five |
| Accounts.FailAll | models/AuthUser.js:142-153 | a run of failures raises the counter by its length |
| Accounts.LockIsNeverRenewed | models/AuthUser.js:148-150 | once a lock is set, further failures never move it, so after it passes the account is unlocked however often logins fail |
| Accounts.FifthFailureLocks | models/AuthUser.js:146-150 | starting unlocked, the failure that brings the counter to five locks the account for 30 minutes from that failure |
| Accounts.FiveFailuresBlockLogin | models/AuthUser.js:142-167 | right after five failures the account is locked and cannot log in |
| Accounts.ToJson | models/AuthUser.js:169-177 | the public view keeps every column but the password, the reset token and expiry, the counter and the lock |
| Accounts.ToJsonHidesSecrets | models/AuthUser.js:169-177 | accounts differing only in the dropped columns have the same public view |
| Accounts.ActiveRolesCount | models/AuthUser.js:180-189 | the grouped count for a role is the number of active accounts with it |
| Accounts.GetRoleStats | models/AuthUser.js:180-195 | all four roles are present and each counts the active accounts with it, 0 when none |
| Accounts.RoleTally | models/AuthUser.js:191-194 | the reduce starting from the four roles at 0 yields exactly those counts |
| Authorization.PrincipalOf | middleware/auth.js:48 | the request carries the account's id, member link and role column text |
| Authorization.Authenticate | middleware/auth.js:22-49 | a checked token passes exactly when it names an account that is active and not locked; every refusal is 401 |
| Authorization.OptionalAuth | middleware/auth.js:139-160 | a user is attached exactly when the account exists, is active and is not locked, and then it is that account |
| Authorization.OptionalAuthAgreesWithAuthenticate | middleware/auth.js:139-160 | the optional and the required authentication accept the same accounts |
| Authorization.AuthorizeRoles | middleware/auth.js:75-93 | passes exactly a present user whose role is listed; 401 exactly when there is no user, 403 exactly for an unlisted role |
| Authorization.RoleGatesAreNested | middleware/auth.js:96-108 | whoever passes the Chairman gate passes the Secretary-or-Chairman gate, and whoever passes that passes the management gate, which admits exactly the three management roles |
| Authorization.ResourceUserId | middleware/auth.js:126 | the first truthy of the route's userId and the route's id, else the body's userId as given, `null` and absent kept apart |
| Authorization.ParamsOverrideBody | middleware/auth.js:126 | once a route parameter is truthy the target is that text and the body cannot change it |
| Authorization.RequireOwnershipOrManagement | middleware/auth.js:111-136 | 401 exactly without a user; management always passes; anyone else passes exactly when the target strictly equals their account id or their member id, which for an account without a member link means a `null` target; refusals are 401 or 403 |
| Authorization.OwnershipDecisions | middleware/auth.js:111-136 | outside management, one's own id in the route passes and someone else's is refused whatever the body holds; with no route parameter an unlinked account passes on a body `userId` of `null` and nobody passes on an absent one |
| Authorization.HasPermission | middleware/auth.js:199-237 | passes exactly a present user whose role's list holds the permission or 'write:all'; 401 exactly without a user, otherwise 403 |
| Authorization.PermissionTableFacts | middleware/auth.js:209-228 | Chairman and Secretary pass every permission, a role outside the table (other than an inherited object property name) passes none, a Member passes exactly 'read:own' and 'write:own' |
| Authorization.AccountRolesAreTabled | middleware/auth.js:209-226 | the role of every principal built from an account is one of the table's four keys, each with a non-empty permission list |
| Authorization.Recent | middleware/auth.js:182 | the filter keeps exactly the times after the window start, never adding one |
| Authorization.RateLimit | middleware/auth.js:163-196 | without a user nothing changes; otherwise only that user's memory changes, to its in-window times, and the request is refused with 429 exactly when the window already holds the maximum, being recorded only when accepted, for any window length |
| Authorization.RetryAfter | middleware/auth.js:189 | the window in whole seconds rounded up, for any window |
| Authorization.RateLimitKeepsBound | middleware/auth.js:182-193 | no user's memory ever grows past the maximum |
| Authorization.RateLimitStep | middleware/auth.js:179-193 | one request keeps the memory's older part filtered and its in-window part in order, appending the request when accepted |
| Authorization.RunRetainsAccepted | middleware/auth.js:163-196 | through a run of requests inside one window, the remembered in-window times plus the accepted requests never exceed the maximum |
| Authorization.AtMostMaxPerWindow | middleware/auth.js:163-196 | inside any one window at most the maximum number of a user's requests are let through |
| Authorization.DefaultLimiterAllowsHundredPerQuarterHour | middleware/auth.js:163 | with the defaults, a fresh limiter lets at most 100 of a user's requests through in any 15 minutes, and a refusal says to retry after 900 seconds |
| OfficeTeam.BeforeUpdate | models/OfficeTeam.js:195-200 | only the termination date may change, it is set to now exactly when the status has just become 'Terminated' with no date yet, and an existing date is never replaced |
| OfficeTeam.UpdateKeepsTerminationDated | models/OfficeTeam.js:195-200 | an update that does not clear the date keeps every terminated record dated |
| OfficeTeam.Activate | models/OfficeTeam.js:225-229 | 'Active' with the termination date cleared; nothing else changes |
| OfficeTeam.Deactivate | models/OfficeTeam.js:231-234 | 'Inactive'; nothing else changes, a termination date included |
| OfficeTeam.Terminate | models/OfficeTeam.js:236-241 | 'Terminated' dated now; the notes change only when a truthy text is given |
| OfficeTeam.SetOnLeave | models/OfficeTeam.js:243-246 | 'On Leave'; nothing else changes |
| OfficeTeam.StatusMethodsKeepTerminationDated | models/OfficeTeam.js:195-246 | each of the four methods keeps terminated records dated, and deactivating a terminated record keeps its date |
| OfficeTeam.ServiceMs | models/OfficeTeam.js:255-257 | the absolute distance from joining to termination, or to now while there is no termination date |
| OfficeTeam.ServiceDuration | models/OfficeTeam.js:254-268 | days are the interval rounded up to whole days, years whole 365-day years, months whole 30-day months of the rest, which can reach 12 |
| OfficeTeam.TerminatedDurationIsFrozen | models/OfficeTeam.js:256 | once terminated, the duration does not depend on the clock |
| OfficeTeam.ServiceGrowsWithTime | models/OfficeTeam.js:256-258 | without a termination date, the days of service never decrease as time passes |
| OfficeTeam.TwelveMonthsIsPossible | models/OfficeTeam.js:259-260 | 360 days of service read as 0 years and 12 months |
| OfficeTeam.TotalCompensation | models/OfficeTeam.js:248-252 | salary plus allowances, a missing amount counting as 0 |
| OfficeTeam.ToJson | models/OfficeTeam.js:270-277 | the public view keeps every column but the salary, bank account, PAN and citizenship number |
| OfficeTeam.ToJsonHidesSecrets | models/OfficeTeam.js:270-277 | records differing only in those four columns have the same public view |
| OfficeTeam.Statuses | models/OfficeTeam.js:308-315 | the status of every record, in order |
| OfficeTeam.StatusOccurs | models/OfficeTeam.js:308-315 | a status is listed exactly when some record has it |
| OfficeTeam.PositionOccurs | models/OfficeTeam.js:317-325 | a position is listed exactly when some active record holds it |
| OfficeTeam.StatusCounts | models/OfficeTeam.js:336-339 | a key for exactly the statuses that occur, each with its number of records |
| OfficeTeam.PositionCounts | models/OfficeTeam.js:340-343 | a key for exactly the positions active records hold, each with its number of active records |
| OfficeTeam.GetTeamStats | models/OfficeTeam.js:307-350 | status counts have exactly the statuses that occur, each counted; position counts have exactly the positions of active records, each counted; the sums are over active records and the total is their sum |
| OfficeTeam.CompensationSplits | models/OfficeTeam.js:327-347 | the active staff's compensation summed per record equals the salary sum plus the allowance sum |
| OfficeTeam.TeamCompensationIsSumOfMembers | models/OfficeTeam.js:327-347 | the team's total compensation is the sum of each active member's own total |
| YearlyGoals.NewGoal | models/YearlyGoals.js:9-108 | a new row is a dated-less draft, and it passes the validators exactly when its year is between 2000 and 2100 |
| YearlyGoals.BeforeSave | models/YearlyGoals.js:150-160 | only the approval and completion dates may change; each is set to now exactly when the status has just become 'Active' (respectively 'Completed') and that date is unset |
| YearlyGoals.SaveKeepsGoalsDated | models/YearlyGoals.js:150-160 | a save that clears no date keeps active goals approved-dated and completed goals completion-dated |
| YearlyGoals.CreatedGoalsAreDated | models/YearlyGoals.js:150-160 | a new goal is dated after its first save, whatever status it starts with |
| YearlyGoals.Activate | models/YearlyGoals.js:179-184 | 'Active', the approver recorded and the approval dated now even when already approved; nothing else changes |
| YearlyGoals.Complete | models/YearlyGoals.js:186-190 | 'Completed' dated now; nothing else changes |
| YearlyGoals.Cancel | models/YearlyGoals.js:192-195 | 'Cancelled' with no date touched |
| YearlyGoals.StatusMethodsKeepGoalsDated | models/YearlyGoals.js:150-195 | the three methods keep dated goals dated, and cancelling a completed goal keeps its completion date |
| YearlyGoals.Create | models/YearlyGoals.js:9-160 | a row failing a validator is refused, one whose year is taken violates the unique index, and otherwise the saved row is appended |
| YearlyGoals.Update | models/YearlyGoals.js:9-160 | the same checks against every other row, and otherwise only that row is replaced by its saved version |
| YearlyGoals.SavesKeepTableSound | models/YearlyGoals.js:9-17 | creating and updating keep every row valid and one row per year |
| YearlyGoals.GoalsByYear | models/YearlyGoals.js:333-349 | the result, if any, is a row of that year, and there is none exactly when no row has the year |
| YearlyGoals.LookupFindsTheYearsRow | models/YearlyGoals.js:333-349 | with one row per year the lookup returns exactly the row of that year |
| ErrorHandling.DecimalText | middleware/errorHandler.js:6 | the text of an integer is non-empty, starts with a digit when non-negative and with '-' when negative |
| ErrorHandling.DecimalTextRoundTrip | middleware/errorHandler.js:6 | reading the text of a natural number back gives the number |
| ErrorHandling.DecimalTextLeads | middleware/errorHandler.js:6 | the text starts with the number's most significant digit |
| ErrorHandling.StatusFor | middleware/errorHandler.js:6 | 'fail' exactly when the code's text starts with '4', 'error' otherwise |
| ErrorHandling.StatusIsFailForClientErrors | middleware/errorHandler.js:6 | for three-digit codes 'fail' means exactly a 4xx code |
| ErrorHandling.StatusFollowsLeadingDigit | middleware/errorHandler.js:6 | the text test also calls 4 and 4000 'fail' and -400 'error' |
| ErrorHandling.AppError | middleware/errorHandler.js:2-11 | the error carries the given code, its 'fail'/'error' status, the message and name, and is operational |
| ErrorHandling.SubclassCodes | middleware/errorHandler.js:13-46 | ValidationError is 400, NotFoundError 404, UnauthorizedError 401, ForbiddenError 403, ConflictError 409, all 'fail', with the two default messages |
| ErrorHandling.Normalize | middleware/errorHandler.js:114-115 | a missing or zero code becomes 500 and a missing or empty status 'error'; everything else is kept |
| ErrorHandling.Messages | middleware/errorHandler.js:50-56 | the message of every entry, in order |
| ErrorHandling.KindOf | middleware/errorHandler.js:125-139 | each recognised kind holds exactly for its library error name(s) |
| ErrorHandling.OwnNamesAreUnrecognised | middleware/errorHandler.js:125-139 | none of the application's own class names is translated |
| ErrorHandling.Translate | middleware/errorHandler.js:49-139 | translation fails exactly for a validation error without entries or a unique-constraint error with none; unrecognised errors pass unchanged; a code is never lost |
| ErrorHandling.ProductionReply | middleware/errorHandler.js:90-110 | operational errors keep their code, message and entries, others become the generic 500, a failed translation faults; production replies carry no details |
| ErrorHandling.ProductionClientCodes | middleware/errorHandler.js:49-139 | in production, validation, foreign-key and cast errors answer 400 and unique-constraint errors 409 |
| ErrorHandling.ProductionServerAndTokenCodes | middleware/errorHandler.js:70-139 | in production, connection and timeout errors answer 500 and token errors 401 |
| ErrorHandling.OwnErrorsPassThrough | middleware/errorHandler.js:113-143 | in production an application error with a non-zero code reaches the client with exactly its code and message |
| ErrorHandling.UnknownRouteIs404 | middleware/errorHandler.js:153-156 | an unknown route answers 404 in both modes |
| ErrorHandling.MissingFields | middleware/errorHandler.js:174 | never more fields than were required |
| ErrorHandling.NoMissingFields | middleware/errorHandler.js:174-175 | nothing is missing exactly when every required field is truthy |
| ErrorHandling.MissingFieldsMembers | middleware/errorHandler.js:174 | a field is reported exactly when it is required and falsy |
| ErrorHandling.MissingFieldsAppend | middleware/errorHandler.js:174 | the report keeps the order of the required list |
| ErrorHandling.ValidateRequiredFields | middleware/errorHandler.js:173-178 | passes exactly when every required field is truthy, and otherwise throws the ValidationError naming the missing ones |
| ErrorHandling.ValidateNumericRange | middleware/errorHandler.js:180-184 | passes exactly a number within the bounds (no upper bound when none is given); otherwise a 400 |
| ErrorHandling.ValidateDateRange | middleware/errorHandler.js:186-193 | throws exactly when both dates are valid and the start is after the end |
| ErrorHandling.DateRangeEdges | middleware/errorHandler.js:186-193 | equal dates pass, and so does an invalid end date |
| ErrorHandling.ValidateEnum | middleware/errorHandler.js:195-199 | passes exactly a listed value; otherwise the ValidationError listing the allowed values |
| ErrorHandling.CeilQuotient | middleware/errorHandler.js:212 | with a non-zero limit the whole number of pages just covering the count; with a zero limit Infinity, -Infinity or NaN by the count's sign |
| ErrorHandling.GetPaginationMetadata | middleware/errorHandler.js:211-226 | page, limit and count are echoed, the pages are the ceiling, there is a next page exactly when the page is below it and a previous one exactly after page 1 |
| ErrorHandling.MetadataPagesCoverRecords | middleware/errorHandler.js:211-226 | with a positive limit the pages just cover the records and a next page exists exactly before the last |
| ErrorHandling.ZeroLimitAlwaysHasNext | middleware/errorHandler.js:212-213 | a zero limit with records present reports a next page on every page |
| Responses.Ceil | utils/responseHelper.js:7 | the least integer not below the number |
| Responses.AtLeast1 | utils/responseHelper.js:5-6 | never below 1; a non-zero number is raised to 1 if smaller, and a missing, zero or unparsable one takes the default |
| Responses.CountOf | utils/responseHelper.js:7-12 | the number given, or 0 when missing or unparsable |
| Responses.GetPaginationMeta | utils/responseHelper.js:4-18 | page and limit are the clamped arguments, the pages just cover the count, no records means no pages and no next page, a next page exactly below the last, a previous one exactly after page 1 |
| Responses.ClampingDefaults | utils/responseHelper.js:4-7 | omitted, zero or unparsable arguments give page 1 of limit 10 with no records; fractions below 1 clamp to 1 |
| Responses.PagesCover | utils/responseHelper.js:7 | the rounded-up quotient's pages of the limit just cover the count |
| Responses.MetaOnIntegers | utils/responseHelper.js:4-18 | on whole arguments the page bounds and the next/previous flags read over the integers |
| Responses.CoverInIntegers | utils/responseHelper.js:7 | page bounds over the reals are the same bounds over the integers |
| Responses.CeilUnique | utils/responseHelper.js:7 | only one whole number of pages just covers a count |
| Responses.AgreesWithErrorHandlerMetadata | utils/responseHelper.js:4-18 | on whole in-range arguments it reports the same pages and flags as the error-handler helper |
| Responses.Success | utils/responseHelper.js:20-21 | a success body with the data, the message or 'Success', and the code or 200 |
| Responses.Created | utils/responseHelper.js:23 | a success with 201, the data, and the message or 'Created' |
| Responses.Fail | utils/responseHelper.js:25-26 | a failure body with the message or 'Failure' and the code or 400, with an errors key exactly when errors are given |
| Responses.ServerError | utils/responseHelper.js:28 | a failure with 500, no errors key, and the message or 'Server error' |
| Responses.Paginated | utils/responseHelper.js:30-31 | a 200 success with the data, the empty list by default, the message or 'Success', and the clamped pagination |
| Responses.SuccessAndFailDiffer | utils/responseHelper.js:20-26 | a success body is never a failure body, and created is success at 201 |
| RequestValidation.Check | middleware/validation.js:53-74 | a check contributes nothing exactly when it passes, otherwise one error with its field and message |
| RequestValidation.MeasuredLength | middleware/validation.js:56 | the length `isLength` counts never exceeds the number of characters and equals it exactly when there is no U+FE0E or U+FE0F variation selector |
| RequestValidation.SelectorsAreNotCounted | middleware/validation.js:67 | a variation selector does not count, so five characters and a selector are refused as too short while six plain ones pass |
| RequestValidation.UsernameErrors | middleware/validation.js:53-59 | no error exactly for 3 to 50 letters, digits and underscores; an empty name fails all three checks |
| RequestValidation.FirstLine | middleware/validation.js:69 | the longest prefix without a line terminator, ended by one or by the text's end |
| RequestValidation.PasswordErrors | middleware/validation.js:66-70 | no error exactly for a measured length of six or more and a first line holding a lower-case letter, an upper-case letter and a digit |
| RequestValidation.FirstLineStopsAtBreak | middleware/validation.js:69 | the first line of a text that breaks after a line is that line |
| RequestValidation.FirstLineOfUnbroken | middleware/validation.js:69 | a text without a line terminator is its own first line |
| RequestValidation.PatternSeesOnlyFirstLine | middleware/validation.js:69 | the pattern decides on the first line alone, so a digit after a line break does not satisfy it |
| RequestValidation.CnicErrors | middleware/validation.js:38-41 | no error exactly when the number is absent or has five digits, a dash, seven digits, a dash and one digit |
| RequestValidation.CnicAcceptsItsFormat | middleware/validation.js:40 | every number in that format passes |
| RequestValidation.PasswordChangeErrors | middleware/validation.js:355-375 | no error exactly for a non-empty current password, a new one of measured length six or more meeting the pattern, and a confirmation strictly equal to it, two missing values matching |
| RequestValidation.DecimalTextIsDigits | middleware/validation.js:289-298 | the text of a natural number is all digits |
| RequestValidation.NumeralOfNatural | middleware/validation.js:289-298 | the text of a natural number is a numeral read back as that number |
| RequestValidation.PaginationErrors | middleware/validation.js:289-301 | no error exactly when the page, if present, is an integer of at least 1 and the limit, if present, one from 1 to 100 |
| RequestValidation.PaginationAcceptsItsRange | middleware/validation.js:289-298 | every page from 1 and every limit from 1 to 100 passes |
| RequestValidation.PaginationRefusesOutside | middleware/validation.js:289-298 | page 0 and limit 101 are refused |
| RequestValidation.YearErrors | middleware/validation.js:206-208 | no error exactly for an integer year from 2000 to 2100 |
| RequestValidation.RoleErrors | middleware/validation.js:72-74 | no error exactly for 'admin', 'manager' or 'member' |
| RequestValidation.RoleListMissesAccountRoles | middleware/validation.js:72-74 | every role an account can hold is refused by that list |
| RequestValidation.HandleValidationErrors | middleware/validation.js:4-14 | the request proceeds exactly when nothing was collected, otherwise 400 with every collected error |
| RequestValidation.ValidateAuthUser | middleware/validation.js:52-77 | the request proceeds exactly when username, e-mail, password and role all pass |
| Members.ActiveStatusesCount | models/User.js:180-189 | the grouped query's count for a status is the number of active members with it |
| Members.CategoriesPartitionActive | models/User.js:163-178 | every active member is in exactly one of the three categories |
| Members.StatusesPartitionActive | models/User.js:180-195 | every active member has exactly one of the two statuses |
| WoodInventory.InsertByExpiry | models/WoodInventory.js:283 | inserting one record into an expiry-ordered list keeps it ordered and adds exactly that record |
| WoodDistribution.AccumulateKeys | models/WoodDistribution.js:301-308 | the reduce has an entry for a status exactly when it started with one or some record has that status |
| WoodDistribution.AccumulateGroups | models/WoodDistribution.js:301-308 | starting from the empty object, the reduce has exactly the statuses present, each entry counting its records and never zero |
| WoodDistribution.CountStatusIsMultiplicity | models/WoodDistribution.js:289-299 | the grouped count for a status is how often it occurs, positive exactly when it occurs |
| WoodDistribution.StatusCountsCoverAll | models/WoodDistribution.js:281-309 | every record has exactly one of the five statuses |
| WoodDistribution.CountFromStats | models/WoodDistribution.js:301-309 | reading a status from the statistics, a missing one as 0, gives its record count |
| ErrorHandling.GlobalErrorHandler | middleware/errorHandler.js:113-143 | development replies with the error as thrown, its code defaulted to 500, plus details; production replies with the translated error |

## Left out

- Persistence: Sequelize queries, associations, indexes other than the unique ones, and the asynchronous, non-transactional chain of hooks are not modelled; each hook is one atomic step over in-memory records and each aggregate a fold over a sequence.
- DECIMAL columns come back from the database as strings, so `+=` on them in the hooks concatenates text; the model does arithmetic on numbers instead. The same string values have further effects the model does not follow:
- WoodInventory.SavedStatusMatchesPredicates: holds for numeric pools only. On a row loaded from the database, `isLowStock` compares two DECIMAL strings as text (available "100.00" against threshold "20.00" reads as low), while the save hook parses them as numbers and keeps the row 'Available'.
- WoodDistribution.BeforeSave: the price guard tests the number; a loaded `pricePerUnit` of "0.00" is a truthy string, so the source sets `totalPrice` to 0 where the model leaves it unchanged.
- DistributionController.RecordDistribution: the body's `quantity` is taken as a number; a JSON string such as "0" is truthy and passes the source's field check, where the model's zero is refused.
- Authorization.HasPermission: a role string naming an inherited property of a plain object (`constructor`, `__proto__`, `toString`) finds a non-array in the table, so the source throws and answers 500 where the model answers 403. A principal's role comes only from `Accounts.RoleName`, whose four spellings all have table entries (`Authorization.AccountRolesAreTabled`), so no stored account reaches this.
- Floating point: NaN and rounding are not modelled beyond the `Arg` type of the pagination helper.
- `null` and `undefined` are one `None` where the source treats both as falsy or as a missing column; the ownership gate's body field, which a strict `===` reads, has its own `BodyValue` type that keeps them apart.
- RequestValidation.PasswordChangeErrors: the body fields are taken as strings or absent; a JSON `null` or a non-string value is not modelled, so the strict comparison of a `null` confirmation with an absent new password (which the source refuses) is not covered.
- WoodInventory.ExpiresWithin: the window end is `now` plus `days` times 24 hours; the source moves by calendar days with `setDate`, which differs by an hour across a daylight-saving change.
- WoodInventory.GetExpiringItems: the parameter default `days = 30` is not modelled; the caller passes the number of days.
- Foreign-key failures (a distribution naming a missing user) are not modelled; a missing stock record is.
- JWT signing and verification and bcrypt hashing (the AuthUser hashing hooks, `validatePassword`, the token checks in `authenticateToken` and `optionalAuth`) are foreign calls; the gates start after the token has been verified and the account looked up.
- `AuthUser.findByUsernameOrEmail` is a database lookup and is not modelled.
- Receipt numbers and employee ids use `Math.random` and the wall clock and are left out.
- `YearlyGoals.getProgress` and the calculator's `attendanceRate` are floating-point percentages formatted with `toFixed`, and are left out.
- `getUpcomingRetirements` and `getMonthlyDistribution` are calendar arithmetic; `getTeamHierarchy`, `getTeamByPosition`, `getActiveTeam`, `findByEmployeeId` and `getAllGoals` are plain queries; all are left out.
- `getInventorySummary`, `getLowStockItems` and `getWoodTypeStats` are database aggregates outside the ledger and are left out.
- `getUserAttendance`, `checkUserAttendanceForMonth` and `getActiveMembers` of the attendance model, and the controller's `getAllDistributions`, are plain queries and are left out.
- `WoodDistribution.Window`: the source reaches the range operator as `sequelize.Op.between` on the model's `sequelize` argument; whether that lookup resolves is a library matter, and the model takes the intended inclusive BETWEEN filter.
- `WoodInventory.GetExpiringItems`: the same holds for its `Op.lte`, `Op.gte` and `Op.ne`, read from the model's `sequelize` argument through `const { Op } = sequelize`; the model takes the intended filter.
- Library validators (`isEmail`, `isMobilePhone`, `normalizeEmail`, `isISO8601`, `isFloat`) are not modelled; `RequestValidation.ValidateAuthUser` takes the e-mail verdict as a parameter, and the other chains of validation.js (user, login, attendance, inventory, distribution, goals, office team, id and date range) are left out.
- The snake_case controllers (auth, user, inventory, attendance, team, goals, dashboard), the routes, app.js, server.js and the process exit handlers are wiring and I/O and are left out. In `recordDistribution` the model takes the intended camelCase fields of the stock record.
- DistributionController.RecordDistribution: the handler requires `../models/WoodInventory` and `../models/WoodDistribution` directly, and those files export the factory `(sequelize, DataTypes) => …`, not a model. As written, `WoodInventory.findByPk` is therefore not a function, and every request that passes the field check answers 500 from the catch before any lookup; the 404, the insufficient-stock 400, the insert and the 201 are never reached. The model is the intended handler on bound models.
- DistributionController.NewRecord: even with bound models, the handler's `WoodDistribution.create` passes `user_id`, `wood_inventory_id`, `quantity_distributed`, `distributed_by` and `notes`, none of which the model declares, and no `woodType` or `woodSize`, which are required with no default and set by no hook, so that insert would be refused. The model writes the intended `userId`, `inventoryId`, `quantity`, `distributedBy` and `requestNotes`, and fills `woodType` and `woodSize` from the stock record; that copy is the model's own addition.
- `catchAsync`, `requestLogger`, `sendSuccessResponse` and the development reply's stack trace are plumbing and are left out.
- `OfficeTeam.ServiceDuration`: the `display` text is not modelled, only its numbers.
- `ErrorHandling.ValidateNumericRange`: bounds are integers, so the message text for fractional or infinite bounds is not modelled; a missing upper bound stands for `Infinity`.
- `WoodInventory.SortByExpiry`: ties and NULL expiry dates are ordered by the database; the model states only order and permutation.
- Columns no modelled rule reads (addresses, photos, qualifications, emergency contacts and the like) are left out of the records.
