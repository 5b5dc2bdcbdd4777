# Hospital asset manager: a verified model of the server core

The hospital asset manager is a tRPC server over a PostgreSQL database. It keeps five
tables: users, assets, maintenance schedules, repair history and repair requests.
Each handler does one of three things:

- it checks that the rows an input refers to exist, then inserts or patches one row;
- it deletes users by key;
- it reads a filtered, sorted or aggregated view.

This project models that core in Dafny:

- `Store`, a class in `store.dfy`, holds the five tables as sequences in insertion order.
  It also keeps one serial counter per table. Like a PostgreSQL `serial`, each counter
  starts at 1.
- Every write handler is a method of `Store`. Each method is one atomic step.
- The read handlers and the report take the tables they read as values, so they cannot
  change the store.

Modules, one per file:

- `Wrappers` (`wrappers.dfy`) defines `Option` and `Patch`. `Patch` keeps an omitted
  field (`Absent`) apart from a field supplied as null (`Present(None)`). It also defines
  `Apply`, `Then` (last write wins) and `Written`.
- `Tables` (`tables.dfy`) holds:
  - the five closed enums, with their stored labels;
  - the row types, with nullable columns as `Option`;
  - the key constraints: serial keys, unique `username`, `email` and `serial_number`;
  - lookup by key.
- `Inputs` (`inputs.dfy`) holds the validated input objects and the checks their parsers
  make. Examples of those checks:
  - the minimum lengths;
  - the nonnegative cost;
  - fields that are optional and nullable.

  A create input has no field the handler decides itself. For instance, a repair
  request's status cannot be supplied.
- `Query` (`query.dfy`) defines `Filter`, which is `select ... where`, and its laws. A
  select with no `order by` returns its rows in some order; the model uses insertion order.
- `Views` (`views.dfy`) holds the read handlers.
- `Patches` (`patches.dfy`) holds the sparse updates of an asset and of a repair request.
- `Reports` (`reports.dfy`) holds the report: totals, three group-by counts, due
  maintenance and pending requests.
- `HospitalStore` (`store.dfy`) holds the store, its invariant and the write handlers.
- `Scenarios` (`scenarios.dfy`) holds scenarios proved statically about the store's handlers.

Modelling choices:

- Time is an integer instant. It is passed as `now` wherever the server reads the clock.
- Money is an integer number of cents.
- A handler's thrown error is an `Err` result carrying one of these errors:
  - `AssetNotFound(id)`, `UserNotFound(id)` or `RequestNotFound(id)`;
  - `Duplicate(key)`, for a unique index the write ran into.

  Both of the server's "User with id X does not exist" (createAsset) and "User with id X
  not found" (createRepairRequest) become `UserNotFound`.
- The handlers require their validated input (`ValidCreateAssetInput` and so on), because
  the router parses the input before a handler runs. They require nothing else. Every
  missing row and every duplicate is an error path of the method.

The store's invariant is `Store.Valid()`. Every write handler keeps it. It says:

- keys are positive, below their table's counter, and distinct;
- `username`, `email` and `serial_number` are unique;
- every repair-history cost is nonnegative;
- every schedule, history entry and repair request names an existing asset.

## Model

| member | source | states |
|---|---|---|
| Tables.UserRoleName | server/src/db/schema.ts:6 | the stored label of a role parses back to that role |
| Tables.AssetTypeName | server/src/db/schema.ts:7 | the stored label of an asset type parses back to that type |
| Tables.AssetStatusName | server/src/db/schema.ts:8 | the stored label of an asset status parses back to that status |
| Tables.RequestStatusName | server/src/db/schema.ts:9 | the stored label of a repair-request status parses back to that status |
| Tables.MaintenanceStatusName | server/src/db/schema.ts:10 | the stored label of a maintenance status parses back to that status |
| Tables.ClosedEnums | server/src/db/schema.ts:6-10 | each enum column is closed: any label that parses is the label of a member of the enum |
| Tables.FindAsset | server/src/handlers/update_asset.ts:10-13 | the lookup by key finds a row with that id, and finds none exactly when no asset has it |
| Tables.FindRequest | server/src/handlers/update_repair_request.ts:25-28 | the lookup by key finds a row with that id, and finds none exactly when no request has it |
| Tables.UniqueUserNames | server/src/db/schema.ts:15-16 | no two users share a username, and no two share an email |
| Tables.UniqueSerials | server/src/db/schema.ts:29 | no two assets share a serial number |
| Inputs.EmptyAssetPatch | server/src/schema.ts:81-91 | a patch that supplies no field is accepted by the update-asset parser |
| Inputs.ValidCreateUserInput | server/src/schema.ts:32-37 | a create-user input is accepted when the username has at least three characters and the department is non-empty; role is one of the closed enum by its type |
| Inputs.ValidCreateAssetInput | server/src/schema.ts:68-77 | name, department, location and serial number must be non-empty; assigned_user_id must be given but may be null |
| Inputs.ValidUpdateAssetInput | server/src/schema.ts:81-91 | every field is optional; a supplied name, department, location or serial number must be non-empty; assigned_user_id may be absent, null or an id |
| Inputs.ValidCreateMaintenanceScheduleInput | server/src/schema.ts:109-114 | maintenance_type must be non-empty; notes may be null; no status can be supplied |
| Inputs.ValidCreateRepairHistoryInput | server/src/schema.ts:131-137 | the cost is nonnegative; description and technician are non-empty |
| Inputs.ValidCreateRepairRequestInput | server/src/schema.ts:157-162 | description and priority are non-empty, priority being any text; no status, completion date or notes can be supplied |
| Query.Filter | server/src/handlers/get_assets_by_department.ts:9-12 | a select returns only rows that satisfy its condition, and every such row of the table |
| Query.FilterPairwise | server/src/handlers/delete_user.ts:16-19 | removing rows keeps every relation between the remaining rows, such as distinct keys and unique usernames |
| Query.FilterKeepsAll | server/src/handlers/delete_user.ts:16-22 | a delete that matches no row leaves the table as it was |
| Query.FilterKeepsNone | server/src/handlers/get_user_assets.ts:9-12 | a select that no row matches returns the empty list |
| Query.FilterEmptyIff | server/src/handlers/create_asset.ts:11-16 | a select returns no row exactly when no row of the table matches |
| Query.FilterCount | server/src/handlers/get_asset_reports.ts:71-87 | a filtered count is the number of rows that satisfy the condition |
| Query.FilterMultiplicity | server/src/handlers/get_user_assets.ts:9-12 | a select returns each matching row exactly as often as the table holds it, and no other row |
| Views.GetAllAssets | server/src/handlers/get_all_assets.ts:8-12 | every asset row, unchanged, and as many as the table holds (in insertion order, the server's being unspecified) |
| Views.GetAssetsByDepartment | server/src/handlers/get_assets_by_department.ts:9-14 | a row is returned exactly when it is in the table and its department equals the query, whatever its status; each matching row comes back as often as the table holds it, so the length is the number of matching rows |
| Views.GetUserAssets | server/src/handlers/get_user_assets.ts:9-14 | a row is returned exactly when it is in the table and is assigned to the user; the user is not looked up; each matching row comes back as often as the table holds it, so the length is the number of matching rows |
| Views.GetRepairRequestsByUser | server/src/handlers/get_repair_requests_by_user.ts:9-14 | a request is returned exactly when it is in the table and was filed by the user, whatever its status; each matching request comes back as often as the table holds it, so the length is the number of matching requests |
| Views.GetRepairHistoryByAsset | server/src/handlers/get_repair_history_by_asset.ts:16-25 | an entry is returned exactly when it is in the log and belongs to the asset; its cost is returned as stored; each matching entry comes back as often as the log holds it, so the length is the number of matching entries |
| Views.GetMaintenanceSchedules | server/src/handlers/get_maintenance_schedules.ts:8-18 | every schedule row, unchanged: a past-dated scheduled row is not turned into overdue |
| Views.GetAllRepairRequests | server/src/handlers/get_all_repair_requests.ts:9-20 | the result is ordered by created_at, newest first, and is a permutation of the table |
| Views.UnknownDepartmentIsEmpty | server/src/handlers/get_assets_by_department.ts:9-12 | a department no asset is in yields the empty list |
| Views.UserViewsPartitionAssigned | server/src/handlers/get_user_assets.ts:11 | an asset is in a user's view exactly when it is assigned to that user, and an asset in one user's view is in no other user's view |
| Views.NoRequestsIsEmpty | server/src/handlers/get_repair_requests_by_user.ts:9-12 | a user who filed no request gets the empty list |
| Views.NoHistoryIsEmpty | server/src/handlers/get_repair_history_by_asset.ts:16-19 | an asset with no history, for instance one that does not exist, gets the empty list |
| Views.SortedViewKeepsEveryRequest | server/src/handlers/get_all_repair_requests.ts:9-12 | the sorted view has as many rows as the table, and holds a request exactly when the table does |
| Patches.PatchAsset | server/src/handlers/update_asset.ts:20-31 | each of the eight columns is overwritten when supplied and kept when omitted; id and created_at are kept; updated_at becomes now |
| Patches.PatchRequest | server/src/handlers/update_repair_request.ts:10-22 | status, completed_date and admin_notes are written only when supplied; every other column is kept |
| Patches.EmptyAssetPatchTouchesOnlyUpdatedAt | server/src/handlers/update_asset.ts:20-22 | an update with no fields still refreshes updated_at and changes nothing else |
| Patches.NullUnassigns | server/src/handlers/update_asset.ts:31 | supplying a null assigned_user_id clears the assignment |
| Patches.AbsentKeepsAssignment | server/src/handlers/update_asset.ts:31 | omitting assigned_user_id keeps the assignment |
| Patches.AssetPatchIdempotent | server/src/handlers/update_asset.ts:24-31 | applying the same asset patch twice at one instant is the same as applying it once |
| Patches.AssetPatchesCompose | server/src/handlers/update_asset.ts:24-31 | two updates in a row equal one merged patch at the later instant, in which the later patch wins on every field it supplies |
| Patches.StatusOnlyPatchKeepsNotes | server/src/handlers/update_repair_request.ts:12-22 | a status-only patch keeps admin_notes and completed_date |
| Patches.NoTransitionGuard | server/src/handlers/update_repair_request.ts:12-14 | any supplied status is written, whatever the current status |
| Patches.CompletionDateNotDerived | server/src/handlers/update_repair_request.ts:16-18 | setting the status to completed without a completed_date leaves the completion date as it was |
| Patches.RequestPatchIdempotent | server/src/handlers/update_repair_request.ts:10-22 | applying the same request patch twice is the same as applying it once |
| Patches.RequestPatchesCompose | server/src/handlers/update_repair_request.ts:10-22 | two request updates in a row equal one merged patch |
| Reports.GroupBy | server/src/handlers/get_asset_reports.ts:28-34 | group-by yields distinct keys; each key's count is the number of rows holding it and is positive; every occurring value has a group |
| Reports.FillCounts | server/src/handlers/get_asset_reports.ts:36-39 | the forEach loop copies each grouped (key, count) pair into the dictionary, and nothing else |
| Reports.FilledGroupsAreCountMap | server/src/handlers/get_asset_reports.ts:50-53 | the filled dictionary maps exactly the occurring values to their row counts |
| Reports.CountMapSum | server/src/handlers/get_asset_reports.ts:28-67 | the counts of a group-by add up to the number of rows |
| Reports.IsDue | server/src/handlers/get_asset_reports.ts:70-79 | a schedule is due when its status is scheduled and its date is at or before now, inclusive |
| Reports.IsPending | server/src/handlers/get_asset_reports.ts:83-86 | a request is pending when its status is pending |
| Reports.GetAssetReports | server/src/handlers/get_asset_reports.ts:19-96 | total_assets is the row count; each of the three maps is the count map of its column; maintenance_due counts scheduled rows dated at or before now; the pending count counts pending requests |
| Reports.GroupCountsSumToTotal | server/src/handlers/get_asset_reports.ts:28-67 | each of the three maps counts every asset exactly once, so its values sum to total_assets |
| Reports.DepartmentKeysOccur | server/src/handlers/get_asset_reports.ts:50-53 | a department is a key of the department counts exactly when some asset is in it |
| Reports.EmptyTablesGiveEmptyCounts | server/src/handlers/get_asset_reports.ts:36-39 | an empty assets table gives three empty maps |
| HospitalStore.Truthy | server/src/handlers/create_asset.ts:10 | a nullable id is truthy exactly when it is not null and not 0, as JavaScript's `if` tests it |
| HospitalStore.ValidDb | server/src/db/schema.ts:13-72 | the store invariant: serial keys positive, below their counter and distinct in every table; usernames, emails and serial numbers unique; costs nonnegative; every asset_id resolves |
| HospitalStore.Store.Valid | server/src/db/schema.ts:13-72 | the store object's current tables and counters satisfy the store invariant |
| HospitalStore.NewUser | server/src/db/schema.ts:13-20 | a new user row holds the input columns, the generated key, and created_at set to now |
| HospitalStore.NewAsset | server/src/handlers/create_asset.ts:22-34 | a new asset row holds exactly the input's columns, including the caller's status; created_at and updated_at are both now |
| HospitalStore.NewSchedule | server/src/handlers/create_maintenance_schedule.ts:20-28 | a new schedule holds the input's columns (notes may be null), has status scheduled, and has no completion date |
| HospitalStore.NewHistory | server/src/handlers/create_repair_history.ts:20-36 | a new history entry holds the input's columns; its cost is returned exactly as given |
| HospitalStore.NewRequest | server/src/handlers/create_repair_request.ts:30-40 | a new request holds the input's four columns, is pending, is requested now, and has null completed_date and admin_notes |
| HospitalStore.SelectUser | server/src/handlers/create_repair_request.ts:20-25 | the users select by key returns only rows with that key, and returns no row exactly when the user does not exist |
| HospitalStore.SelectAsset | server/src/handlers/create_repair_request.ts:10-15 | the assets select by key returns only rows with that key, and returns no row exactly when the asset does not exist |
| HospitalStore.UserAppendKeeps | server/src/db/schema.ts:14-16 | a user with the next key and an unused username and email keeps the keys and uniqueness |
| HospitalStore.AssetAppendKeeps | server/src/db/schema.ts:24-29 | an asset with the next key and an unused serial number keeps the keys and unique serials |
| HospitalStore.AssetReplaceKeeps | server/src/db/schema.ts:29 | rewriting one asset with a serial number no other asset holds keeps the serials unique |
| HospitalStore.ScheduleAppendKeeps | server/src/db/schema.ts:39 | a schedule with the next key keeps the schedule keys valid |
| HospitalStore.HistoryAppendKeeps | server/src/db/schema.ts:51-55 | a history entry with the next key and a nonnegative cost keeps the keys valid and the costs nonnegative |
| HospitalStore.RequestAppendKeeps | server/src/db/schema.ts:62 | a request with the next key keeps the request keys valid |
| HospitalStore.RequestReplaceKeeps | server/src/handlers/update_repair_request.ts:25-28 | rewriting one request under its own key keeps the request keys valid |
| HospitalStore.SetAssetColumns | server/src/handlers/update_asset.ts:20-31 | the row built by the guarded per-column writes is exactly the asset patch applied at now |
| HospitalStore.ValidAfterUserInsert | server/src/db/schema.ts:13-20 | inserting a user under the next key with an unused username and email keeps the store invariant |
| HospitalStore.ValidAfterAssetInsert | server/src/db/schema.ts:23-35 | inserting an asset under the next key with an unused serial number keeps the store invariant |
| HospitalStore.ValidAfterAssetRewrite | server/src/db/schema.ts:29 | rewriting an asset under its own key with a serial number no other asset holds keeps the store invariant |
| HospitalStore.ValidAfterScheduleInsert | server/src/db/schema.ts:38-47 | inserting a schedule for an existing asset under the next key keeps the store invariant |
| HospitalStore.ValidAfterHistoryInsert | server/src/db/schema.ts:50-58 | inserting a history entry for an existing asset with a nonnegative cost keeps the store invariant |
| HospitalStore.ValidAfterRequestInsert | server/src/db/schema.ts:61-72 | inserting a request for an existing asset under the next key keeps the store invariant |
| HospitalStore.ValidAfterRequestRewrite | server/src/handlers/update_repair_request.ts:25-28 | rewriting a request under its own key and asset keeps the store invariant |
| HospitalStore.Store.constructor | server/src/db/schema.ts:13-72 | an empty store whose serial counters all start at 1 satisfies the invariant |
| HospitalStore.Store.InsertUser | server/src/db/schema.ts:13-20 | a taken username is rejected, then a taken email; otherwise exactly one user is appended under the next key, and the invariant holds |
| HospitalStore.Store.CreateAsset | server/src/handlers/create_asset.ts:7-41 | a truthy assigned_user_id naming no user is rejected with the store unchanged; null or 0 skips the lookup; a taken serial number is rejected; otherwise exactly one asset is appended, returned as stored |
| HospitalStore.Store.UpdateAsset | server/src/handlers/update_asset.ts:7-44 | a missing id fails with the store unchanged; otherwise the row becomes its patch, other assets are untouched, and the row is returned as stored; a serial number held by another asset is rejected |
| HospitalStore.Store.CreateRepairRequest | server/src/handlers/create_repair_request.ts:7-49 | a missing asset is rejected first, then a missing user, each with the store unchanged; otherwise exactly one pending request is appended and returned |
| HospitalStore.Store.UpdateRepairRequest | server/src/handlers/update_repair_request.ts:7-40 | the request with the key becomes its patch and is returned, with every other row untouched; when no row matched it fails with the store unchanged |
| HospitalStore.Store.CreateMaintenanceSchedule | server/src/handlers/create_maintenance_schedule.ts:7-36 | a missing asset is rejected with the store unchanged; otherwise exactly one scheduled row is appended and returned |
| HospitalStore.Store.CreateRepairHistory | server/src/handlers/create_repair_history.ts:7-41 | a missing asset is rejected with the log unchanged; otherwise exactly one entry is appended, with the nonnegative cost as given |
| HospitalStore.Store.DeleteUser | server/src/handlers/delete_user.ts:13-27 | success holds exactly when a user had the id; afterwards no user has it, every other user is kept, and a missing id changes nothing |
| Scenarios.RepairRequestLifecycle | server/src/handlers/update_repair_request.ts:10-35 | a new request is pending; completing it writes status, date and notes while keeping requested_date; the report then counts no pending request |
| Scenarios.ZeroUserIdSkipsLookup | server/src/handlers/create_asset.ts:10 | an assigned_user_id of 0 is stored without a user lookup, while a missing nonzero id is rejected |
| Scenarios.DuplicateSerialRejected | server/src/db/schema.ts:29 | a second asset with the same serial number is rejected, and the table keeps one row |

## Left out

- Reports.GetAssetReports: does not model the JavaScript object the three count maps are
  written into. The server fills a plain `{}`, on which assigning the key `"__proto__"`
  sets the prototype instead of adding an entry. A department named `"__proto__"` passes
  the non-empty check, so the server's department map then omits that department and its
  values no longer add up to total_assets. The model keys it like any other department.
- Ids are unbounded integers (`Tables.Id`). The serial keys are 4-byte integers, and the
  id parsers accept any number. An id outside that range, or a fractional one, makes the
  server's query raise a database error. The model answers such an id as a missing row:
  `Store.DeleteUser` returns false; `Store.UpdateAsset`, `Store.CreateRepairRequest` and
  the other creates return `AssetNotFound` or `UserNotFound`; `Store.UpdateRepairRequest`
  returns `RequestNotFound`; the lookup views return an empty list.
- Inputs.ValidCreateUserInput: no handler uses it, because the create-user handler is a
  placeholder and users enter through the plain insert `Store.InsertUser`. It does not
  check the email format (`z.string().email()`), because strings here have no notion of
  an address syntax; it checks only the username length and the department. Its length
  test counts characters (code points), while the server counts UTF-16 code units. The two
  differ only on characters outside the Basic Multilingual Plane, and only for the
  three-character minimum; a non-empty test agrees under both counts.
- The handlers in server/src/handlers/create_user.ts, update_user.ts and delete_asset.ts
  return made-up values and never touch the database. They are not modelled. Users enter
  the store through `Store.InsertUser`, a plain insert into the users table. Because no
  handler deletes assets, the invariant that every schedule, history entry and request
  names an existing asset holds throughout.
- The update-user input (server/src/schema.ts:41-47) is not modelled, because the only
  handler using it is a placeholder.
- Foreign keys the database enforces beyond the handlers' own lookups are not modelled:
  - an assigned_user_id of 0 is stored as is (see `Scenarios.ZeroUserIdSkipsLookup`);
  - `Store.UpdateAsset` may set an assigned_user_id that names no user;
  - `Store.DeleteUser` removes a user even when assets or requests still refer to it.
- The query builder is not modelled: relations metadata, and what it does with an update
  that sets no column. `Store.UpdateRepairRequest` with no field supplied returns the row
  unchanged. The server passes an empty object to `.set(...)` in that case
  (server/src/handlers/update_repair_request.ts:10-26), and the query builder most likely
  raises an error ("No values to set") there, so the server most likely fails where the
  model succeeds. The version of the query builder is not part of this model.
- Serial sequences are not modelled in full. PostgreSQL advances a serial even when the
  insert then fails on a unique index. The model advances the counter only on success, so
  the keys differ from the database's after such a failure, but keys stay distinct and
  increasing either way.
- Cost is an integer number of cents. The `toString`/`parseFloat` round trip and the
  numeric(10,2) column are not modelled, so the model has no rounding. The column also
  caps a cost: one of 10^8 or more (10^10 cents) overflows it and the insert raises, while
  `Store.CreateRepairHistory` accepts any nonnegative number of cents.
- The clock is the `now` parameter. The model does not say that successive calls see
  later instants.
- Logging and the rethrow of errors are plumbing and are not modelled.
- Concurrency is not modelled. Each handler is one atomic method, although the server's
  check-then-write sequences are not atomic.
- The router and HTTP server (server/src/index.ts) and the React client (client/src/)
  are not part of this model.
- Query.Filter: its own contract states membership and the length bound, not
  multiplicities. `FilterMultiplicity` and `FilterCount` supply those, and `FilterPairwise`
  supplies the order-related facts the store needs.
- Views.GetAllRepairRequests: when two requests share a created_at, the order between them
  is whatever the insertion sort produces. The database leaves that order unspecified.
