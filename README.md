# OrganizationTool ledger engine in Dafny

OrganizationTool is a habit tracker on PocketBase. This project models its
backend ledger and proves properties of the model. In the ledger:

- users hold points;
- activities (owner, points, goal, type) get one entry per period in one of
  four entry tables (`daily_entries`, `weekly_entries`, `monthly_entries`,
  `yearly_entries`);
- rewards are bought with points.

The model covers the scheduled jobs:

- the rollover, which closes open entries and credits points for met goals;
- the provisioning of fresh entries;
- the reset of the reward counters;
- the generation-gated registry that installs these jobs at start-up.

It also covers the record hooks:

- the closed-entry guards;
- the activity owner check;
- the two-phase reward check and point debit;
- the entry created with an activity;
- the type-change migration.

Finally, it covers the web application's validation of an activity form.

The store is a value (`Ledger.Store`): one map per collection, plus `nextId`,
the next record id to hand out. Every job and hook is a method or function
that takes a store and returns the new store, or a `Result` whose error
stands for the error the Go code returns.

- **Transactions.** `RunInTransaction` is `Ledger.Commit`: the body's store
  when the body succeeds, the snapshot otherwise.
- **Refused writes.** Every save or delete the store may refuse is named by a
  `Ref` in the parameter `rejects`.
- **Query order.** Queries return records in ascending id order (`Ascending`),
  the order of insertion.
- **Hooks.** A hook that returns `e.Next()` accepts. The default persistence
  at the end of a request-hook chain always succeeds.

Modules:

- `ledger.dfy` (module `Ledger`): the records, the store and its writes, the
  query order, open-entry counting.
- `rollover.dfy` (module `Rollover`): `calculatePointsCron` and `calculatePointsV2Cron`.
- `provisioning.dfy` (module `Provisioning`): `createNewDailyEntriesCron` and
  the four `createNew<Period>EntriesCron` jobs.
- `rewards.dfy` (module `Rewards`): `updateRedeemedRewardsCron` and the two
  reward update hooks.
- `entry_guards.dfy` (module `EntryGuards`): the closed-entry update and
  delete guards of both schemas.
- `activity_hooks.dfy` (module `ActivityHooks`): the entry-creation hooks,
  the owner check and the type-change hook, both as written and as
  evidently intended.
- `schedule.dfy` (module `Schedule`): `MigrationCron`, `InitMigrationsCron`,
  `applyMigrationCron` and `getMigrationIDs`.
- `validation.dfy` (module `Validation`): `Activity.Validate` of the web application.

## Model

| member | source | states |
|---|---|---|
| Ledger.PeriodOf | backend/migrations/1751618410_activities.go:85-90 | a type string names a period exactly when it is that period's table prefix; no other string names one |
| Ledger.PeriodOfNames | backend/migrations/1751618410_activities.go:86 | the accepted types are exactly "daily", "weekly", "monthly" and "yearly", and each period's name maps back to it |
| Ledger.Ascending | backend/cron/create_database.go:13-16 | a query returns every matching id once, in ascending order, and nothing else |
| Ledger.AscendingHead | backend/migrations/1751618410_activities.go:156-159 | the first record of a query is the least matching id; an empty result means no id matches |
| Rollover.CloseEntryCommits | backend/cron/create_database.go:23-56 | one loop pass succeeds exactly when the entry's save goes through and, for a met goal, the activity and user exist and the user's save goes through |
| Rollover.CloseEntryEffect | backend/cron/create_database.go:23-56 | a successful pass closes the entry, changes no other table, activity or reward, and adds the activity's points to its owner only if progress >= goal |
| Rollover.SweepCommits | backend/cron/create_database.go:23-58 | the loop over distinct entries succeeds exactly when each of them can be closed |
| Rollover.SweepCloses | backend/cron/create_database.go:23-58 | a successful loop over distinct entries closes exactly those entries of the table and changes no other table, activity or reward |
| Rollover.SweepCredits | backend/cron/create_database.go:23-58 | a successful loop over distinct entries credits each user the sum of the points its met entries earn it |
| Rollover.RolloverCommits | backend/cron/create_database.go:12-61 | the rollover transaction commits exactly when every open entry of the table can be closed |
| Rollover.RolloverCloses | backend/cron/create_database.go:12-61 | after a committed rollover every entry of the table is closed, with nothing else changed in any entry, other tables, activities and rewards untouched, and each user's points raised by its credit |
| Rollover.RolloverValid | backend/cron/create_database.go:12-61 | a rollover hands out no new ids and keeps every id below the bound |
| Rollover.RolloverEffect | backend/cron/create_database.go:12-61 | the rollover in one statement: commit condition, rollback to the snapshot on failure, closed entries and credits on success |
| Rollover.RolloverIdempotent | backend/cron/create_database.go:13-16 | a second rollover right after the first changes nothing, since closed entries are not selected again |
| Rollover.CreditNonNegative | backend/cron/create_database.go:52 | credits are sums of activity points, so they are never negative when no activity is worth negative points |
| Rollover.RolloverNeverDebits | backend/cron/activities.go:48 | a rollover never lowers a user's points when no activity is worth negative points |
| Rollover.CloseOne | backend/cron/create_database.go:23-56 | the loop body, step by step, computes exactly the specification's one-entry close |
| Rollover.SweepTable | backend/cron/activities.go:23-54 | the loop over the open entries of one table computes the transaction body `SweepOf` |
| Rollover.CalculatePointsCron | backend/cron/create_database.go:10-63 | the daily job is one rollover transaction on the daily table |
| Rollover.CalculatePointsV2Cron | backend/cron/activities.go:10-58 | the version-2 job runs one rollover transaction per table in the order daily, weekly, monthly, yearly, each committed or dropped on its own |
| Rollover.RolloverAllValid | backend/cron/activities.go:21-56 | the four transactions one after the other keep every id below the bound |
| Rollover.RolloverLocal | backend/cron/activities.go:21-56 | a table's rollover depends only on that table, the activities, which users exist and the id bound, so earlier tables' transactions do not change it |
| Rollover.RolloverLocalCommits | backend/cron/activities.go:21-56 | whether a table's transaction commits depends only on that table, the activities and which users exist |
| Rollover.RolloverAllEffect | backend/cron/activities.go:21-56 | a failed table rolls back that table only: each table ends as if rolled over alone, and each user gains the credits of exactly the committed tables |
| Rollover.CalculatePointsV2Effect | backend/cron/activities.go:10-58 | after the version-2 job all four tables are as after their own rollover and each user gains the committed credits |
| Provisioning.EntryFor | backend/cron/create_database.go:81-86 | a new entry has the activity's id, progress 0, the activity's goal and is open |
| Provisioning.Selected | backend/cron/activities.go:65 | the activity query returns exactly the matching activities, in ascending id order |
| Provisioning.ProvisionCommits | backend/cron/create_database.go:79-92 | the insert loop succeeds exactly when none of the new records' saves is refused |
| Provisioning.ProvisionFrame | backend/cron/create_database.go:79-92 | provisioning changes nothing but the target table and the id bound |
| Provisioning.ProvisionTable | backend/cron/create_database.go:79-92 | provisioning keeps every existing entry unchanged and adds entries exactly under the ids nextId .. nextId + |acts| - 1 |
| Provisioning.ProvisionNew | backend/cron/create_database.go:79-92 | the entry stored under id nextId + i is the fresh open entry of the i-th selected activity |
| Provisioning.ProvisionOpenCount | backend/cron/activities.go:76-89 | each activity's count of open entries grows by the number of times it was selected; no check for an existing open entry |
| Provisioning.ProvisionValid | backend/cron/create_database.go:79-92 | provisioning keeps every id below the bound |
| Provisioning.ProvisionEntries | backend/cron/activities.go:76-89 | the insert loop computes the specification fold `Provision` over the query result |
| Provisioning.CreateNewDailyEntriesCron | backend/cron/create_database.go:65-97 | the daily job of the first schema is one transaction inserting an entry for every activity |
| Provisioning.CreateNewEntriesCron | backend/cron/activities.go:60-196 | each period's job is one transaction inserting an entry for every activity of that type |
| Provisioning.ProvisionJobCommits | backend/cron/activities.go:60-89 | a provisioning transaction commits exactly when no new save is refused, leaves the store as it was otherwise, and keeps every id below the bound |
| Provisioning.ProvisionJobCounts | backend/cron/activities.go:60-89 | a committed provisioning job gives each selected activity exactly one more open entry and every other activity as many as before |
| Provisioning.CreateNewEntriesEffect | backend/cron/activities.go:60-196 | a period's job commits exactly when no new save is refused, and then every activity of that type has exactly one more open entry in the table and every other activity as many as before |
| Provisioning.CreateNewDailyEntriesEffect | backend/cron/create_database.go:65-97 | the first schema's job gives every activity, whatever its type, exactly one more open daily entry, or leaves the store as it was |
| Provisioning.SelectedOnce | backend/cron/activities.go:65 | the query holds each matching activity exactly once |
| Rewards.ResetAll | backend/cron/create_database.go:107-110 | every reward's `redeemed` and `used` become 0 and no other field changes |
| Rewards.ResetEffect | backend/cron/create_database.go:107-114 | the reset loop over distinct rewards succeeds exactly when no save is refused, and then resets exactly those rewards |
| Rewards.ResetAllEffect | backend/cron/create_database.go:101-117 | the reset transaction body succeeds exactly when every reward's save is accepted, and then equals resetting all rewards |
| Rewards.ResetRewards | backend/cron/create_database.go:102-116 | the loop over the query result computes the specification fold `Reset` |
| Rewards.UpdateRedeemedRewardsCron | backend/cron/create_database.go:99-119 | when every save goes through, every reward is reset and nothing else changes; any refused save leaves the store as it was |
| Rewards.ResetSound | backend/cron/create_database.go:107-110 | after a reset every reward with a non-negative limit satisfies 0 <= used <= redeemed <= max |
| Rewards.CheckRewardUpdate | backend/migrations/1751529958_create_database.go:195-224 | the check passes exactly when the reward exists, stored redeemed <= incoming redeemed <= stored max, and stored used <= incoming used <= stored redeemed; otherwise the first failing test names the error: a missing reward NotFound, a lower redeemed RedeemedDecreased, redeemed over the limit RedeemedOverMax, a lower used UsedDecreased, used over the stored redeemed UsedOverRedeemed |
| Rewards.RedeemHook | backend/migrations/1751529958_create_database.go:230-256 | the redeem hook succeeds exactly when reward and owner exist, the owner has at least the cost and the save goes through; it then lowers the owner's points by exactly the cost, leaving them non-negative; a missing reward or owner is refused with not-found, too few points with not-enough-points, and any other failure is the refused save of the owner |
| Rewards.UpdateRewardRequest | backend/migrations/1751529958_create_database.go:191-257 | the check (priority 0) runs before the redeem (priority 2): a failed check returns its error with nothing debited; success charges the owner and stores the incoming record |
| Rewards.UpdateKeepsSound | backend/migrations/1751529958_create_database.go:202-221 | an accepted update that keeps the limit keeps the reward consistent |
| Rewards.CheckAllowsLimitBelowRedeemed | backend/migrations/1751529958_create_database.go:209 | the limit test uses the stored limit only, so an update lowering the limit below the new redeemed count passes |
| Rewards.NoNewRedeemNoCharge | backend/migrations/1751529958_create_database.go:241-247 | an update that leaves `redeemed` unchanged costs 0 and leaves the balance as it was |
| Rewards.RedeemNeverCredits | backend/migrations/1751529958_create_database.go:241-242 | with a non-negative unit cost an accepted update's cost is never negative |
| EntryGuards.GuardDailyUpdateV1 | backend/migrations/1751529958_create_database.go:324-331 | the first schema refuses a daily update exactly when the stored entry is closed |
| EntryGuards.GuardEntryUpdate | backend/migrations/1751618410_activities.go:272-283 | an entry update passes exactly when the stored entry exists and is open |
| EntryGuards.GuardEntryDelete | backend/migrations/1751618410_activities.go:295-301 | an entry delete passes exactly when the record it carries is open |
| EntryGuards.DailyGuardsAgree | backend/migrations/1751618410_activities.go:268-285 | the second schema's daily update guard decides as the first schema's on stored entries |
| EntryGuards.UpdateEntryRequest | backend/migrations/1751618410_activities.go:404-421 | an update request succeeds exactly when the stored entry is open, and then stores the incoming record and nothing else |
| EntryGuards.DeleteEntryRequest | backend/migrations/1751618410_activities.go:426-438 | a delete request succeeds exactly when the entry exists and is open, and then removes it and nothing else |
| EntryGuards.HandleKeepsClosed | backend/migrations/1751618410_activities.go:538-572 | no single request changes or removes a closed entry |
| EntryGuards.ClosedEntryFrozen | backend/migrations/1751618410_activities.go:672-706 | whatever sequence of entry requests clients send, a closed entry stays exactly as it is |
| EntryGuards.UpdateMayRewriteOpen | backend/migrations/1751618410_activities.go:273-282 | the update guard ignores the incoming record, so an open entry may be rewritten, closed included |
| ActivityHooks.FirstOpen | backend/migrations/1751618410_activities.go:156-159 | the `closed = False` query's first record is the open entry with the least id, whichever activity owns it; none means no open entry |
| ActivityHooks.FirstOpenOf | backend/migrations/1751618410_activities.go:156-159 | the least open entry of one activity; none means the activity has no open entry |
| ActivityHooks.CreateDailyEntryHookV1 | backend/migrations/1751529958_create_database.go:96-118 | the first schema gives every new activity one open daily entry with progress 0 and its goal, whatever its type |
| ActivityHooks.CreateEntryHook | backend/migrations/1751618410_activities.go:80-108 | an unknown type is refused; otherwise the new activity gets exactly one open entry in the table of its type, with progress 0 and its goal |
| ActivityHooks.OwnerCheck | backend/migrations/1751618410_activities.go:117-128 | an activity update passes exactly when the stored activity exists and has the incoming owner |
| ActivityHooks.UpdateActivityRequest | backend/migrations/1751618410_activities.go:114-130 | an accepted update stores the incoming activity and changes no entry table, user or reward |
| ActivityHooks.OwnerNeverChanges | backend/migrations/1751618410_activities.go:123-125 | through any sequence of update requests an activity keeps its owner |
| ActivityHooks.ChangeActivityTypeHook | backend/migrations/1751618410_activities.go:139-184 | the hook's handler, step by step, computes `ChangeType`: a missing activity fails with not-found, equal types pass and an unknown old type fails with unknown-activity-type, each with the store unchanged; a failure that changes the store is one where the delete of the old table's first open entry went through and the save of its copy was refused, and the store then differs only by that deleted entry |
| ActivityHooks.ChangeTypePasses | backend/migrations/1751618410_activities.go:146-181 | the hook passes exactly when the types are equal, or both name a period, the old table has an open entry and neither its delete nor the save of the copy under the next id is refused |
| ActivityHooks.ChangeTypeOnItselfIsNoop | backend/migrations/1751618410_activities.go:145-149 | given the stored record itself, the hook changes nothing and passes |
| ActivityHooks.AfterActivityCreate | backend/migrations/1751618410_activities.go:772-776 | on activity creation the entry is created, and then the type-change hook, which compares the activity with itself, changes nothing |
| ActivityHooks.ChangeTypeLosesEntryOnFailedSave | backend/migrations/1751618410_activities.go:175-181 | when the delete goes through and the save is refused, the hook fails with the old entry already gone |
| ActivityHooks.ChangeTypeMovesFirstOpen | backend/migrations/1751618410_activities.go:156-181 | when both types name different periods, the old table has an open entry, and neither the delete of the first one nor the save under the next id is refused, the run passes, removes that entry and saves its progress and goal under this activity; when that entry belonged to another activity, that activity loses an open entry and this one keeps all of its own |
| ActivityHooks.FirstOpenCanBeForeign | backend/migrations/1751618410_activities.go:156-159 | in a concrete store the first open daily entry belongs to another activity than the one whose type changes; with these facts `ChangeTypeMovesFirstOpen` gives the move of that foreign entry |
| ActivityHooks.ChangeActivityTypeAtomic | backend/migrations/1751618410_activities.go:136-186 | corrected migration: it succeeds exactly when the types are equal, or both are periods, the activity has an open entry in the old table and neither write is refused; equal types change nothing; otherwise the activity's own first open entry moves to the new table with its progress and goal, the activity loses one open entry in the old table and gains one in the new one, and users, activities, rewards and the other tables stay as they were |
| ActivityHooks.MoveEntry | backend/migrations/1751618410_activities.go:169-181 | corrected writes: the delete and the save both happen, giving exactly the moved store, or neither does |
| ActivityHooks.MovedShape | backend/migrations/1751618410_activities.go:169-181 | a move removes the entry from the old table and stores it, open and unchanged, under the next id in the new table, touching nothing else |
| ActivityHooks.MovedEffect | backend/migrations/1751618410_activities.go:169-181 | after a move the entry's activity has one open entry less in the old table and one more in the new one, other activities' counts are unchanged and every id stays below the bound |
| ActivityHooks.UpdateActivityRequestMigrating | backend/migrations/1751618410_activities.go:114-186 | corrected update: it succeeds exactly when the owner check passes and the migration can go through, and a failed owner check returns its error; the result is the migrated store with the incoming activity saved; users and rewards never change, an unchanged type leaves every table as it was, and a type change moves one open entry of the activity from the old table to the new one and leaves the other tables alone |
| Schedule.RunJob | backend/cron/cron.go:54 | every job the registry can install keeps every record id below the bound |
| Schedule.Ids | backend/cron/cron.go:66-72 | the migration ids are the row numbers 1..n |
| Schedule.GetMigrationIds | backend/cron/cron.go:60-75 | the append loop yields 1..n in ascending order; a failed query yields no ids and reports the failure |
| Schedule.LastNamed | backend/cron/cron.go:51-56 | finds a job of the name that no later job of that name follows, or none exactly when no job has the name |
| Schedule.InstallLastWins | backend/cron/cron.go:51-56 | under the assumption that adding a job replaces one of the same name, each name ends with the last job of that name added, and unused names keep what they had |
| Schedule.InstallDistinct | backend/cron/cron.go:51-56 | adding jobs whose names are pairwise different schedules each job under its own name |
| Schedule.InstallKeys | backend/cron/cron.go:54 | adding jobs schedules exactly their names on top of the existing ones |
| Schedule.InstalledGenerations | backend/cron/cron.go:28-40 | with ids 1..n the jobs added are generation 7's when n >= 7, then generation 8's when n >= 8, and nothing else |
| Schedule.ApplyMigrationCron | backend/cron/cron.go:45-58 | the nested loops add the jobs of every registered id, lowest id first and in list order within a generation |
| Schedule.InitMigrationsCron | backend/cron/cron.go:27-43 | start-up builds the registry of generations 7 and 8, drops any "calculatePoints" and "createNewDailyEntries" job while building generation 8, then applies the registry |
| Schedule.StartupQueryFailed | backend/cron/cron.go:46-50 | a failed migration query installs nothing |
| Schedule.StartupBelow7 | backend/cron/cron.go:51-53 | with fewer than seven applied migrations no job is installed |
| Schedule.StartupGeneration7 | backend/cron/cron.go:29-33 | with exactly seven, the three version-1 jobs are scheduled |
| Schedule.Generation7Installs | backend/cron/cron.go:29-33 | adding generation 7 schedules its three jobs under their names, with their version-1 jobs |
| Schedule.StartupFrom8 | backend/cron/cron.go:29-40 | with eight or more, calculatePoints and createNewDailyEntries run their version-2 jobs, the weekly, monthly and yearly jobs are added, and updateRedeemedRewards stays as generation 7 set it |
| Schedule.StartupFrom8Keeps | backend/cron/cron.go:29-40 | with eight or more, a job under a name neither generation uses is scheduled afterwards exactly when it was before, with the same job |
| Schedule.Generation8Installs | backend/cron/cron.go:34-40 | adding generation 8 schedules each of its jobs under its name and leaves the reward reset as it was |
| Validation.LowerRune | webapp/internal/data.go:46 | ASCII capitals map to their lower-case letter, KELVIN SIGN to 'k', CAPITAL I WITH DOT ABOVE to 'i', anything else to itself |
| Validation.Lower | webapp/internal/data.go:46 | lower-casing keeps the length and maps every character |
| Validation.InvalidFields | webapp/internal/data.go:25-49 | only the five field names can be reported |
| Validation.Join | webapp/internal/data.go:52 | joining no parts gives "", one part gives that part |
| Validation.Validate | webapp/internal/data.go:24-56 | no error exactly when name and user are set, points and goal are at least 1 and the lower-cased type is a period; otherwise "Invalid request: " and the failing fields joined with ", " |
| Validation.InvalidFieldsExact | webapp/internal/data.go:27-49 | each field is reported exactly when its own test fails |
| Validation.NoInvalidFieldsExact | webapp/internal/data.go:51-53 | no field is reported exactly when the form passes every test, so the error is returned exactly when a test fails |
| Validation.InvalidFieldsOrdered | webapp/internal/data.go:27-49 | the reported fields follow the order name, user, points, goal, type, each at most once |
| Validation.TypeIgnoresCase | webapp/internal/data.go:43-48 | "Daily" and "WEEKLY" are accepted, the empty type is refused |
| Validation.KnownTypeByLowerCase | webapp/internal/data.go:43-48 | a type passes exactly when its lower-case form is daily, weekly, monthly or yearly, so spellings with the same lower-case form pass or fail together, and a passing type has 5 to 7 characters |
| Validation.KelvinSignAccepted | webapp/internal/data.go:46 | a type spelt with KELVIN SIGN in place of 'k' is accepted as "weekly" |
| Validation.AllFieldsReported | webapp/internal/data.go:27-49 | a form with every field wrong reports all five fields, in the check's order |
| Validation.AllFieldsMessage | webapp/internal/data.go:51-53 | the five names joined give "name, user, points, goal, type" |

## Left out

- Lookup failures of collections (`FindCollectionByNameOrId`) and of whole
  queries are not modelled: both only return an error before any write, and
  the transaction or hook then changes nothing.
- A record lookup by id fails exactly when the record is missing (`NotFound`).
  A refused write is named in `rejects`; why it is refused (validation,
  storage) is not modelled.
- The final persistence of an accepted update or delete request, after the
  hook chain, always succeeds.
- Hook binding and unbinding are not modelled: which hooks are bound is fixed
  per schema, and the line that unbinds the first schema's delete hook from the
  update hook list (1751618410_activities.go:292) is configuration.
- The collection schemas, the API rules (including the weekly, monthly and
  yearly rule setters that all edit `daily_entries`) and the migration
  register/revert bodies are configuration.
- Logging calls are not modelled.
- Cron expressions are opaque labels, with no time or calendar meaning. When
  a job runs is not modelled.
- Concurrency between jobs and requests, and the store's isolation levels, are
  not modelled.
- Record ids are numbers handed out in increasing order. PocketBase ids are
  random strings; queries are taken to return records in insertion order.
- Schedule.InstallLastWins: that the scheduler's add replaces a job of the
  same name is an assumption about the external scheduler library.
- Schedule.GetMigrationIds: the SQL query is reduced to its row count, or a
  failure.
- Validation.LowerRune: only characters whose lower-case form can be an ASCII
  letter are mapped. Other non-ASCII characters keep their case, which does
  not change the verdict for the four ASCII type names. Invalid UTF-8 is not
  modelled.
- EntryGuards.GuardDailyUpdateV1: the first schema ignores the lookup error,
  so the guard requires the stored entry to exist, as it does for an update
  request.
- EntryGuards.DeleteEntryRequest: the record a delete request carries is the
  stored record, so the delete guard tests the stored `closed` flag.
- Rewards.Cost, Rewards.RedeemHook and Rollover.CreditOwner: integers are
  unbounded. Go's 64-bit products and sums (`redeemed * unit_cost`,
  `points + activity points`) wrap around near 2^63 and the model does not
  wrap; `users.points` is read with `GetInt`, which truncates a fractional
  value the number field would allow, and the model holds whole points only.
- `Activity.Save` and `Activity.create` of the web application are HTTP
  client code; the form is a value and `Validate` cannot modify it.

## Findings

| source | as written | input that shows it | evidently intended | confidence | as-written member | corrected member |
|---|---|---|---|---|---|---|
| backend/migrations/1751618410_activities.go:137 | the type-change hook is bound to the after-create event, where it compares a new activity with itself | any activity creation, and any activity update with a new type | run on activity updates, so that a type change moves the activity's open entry | not executed | ActivityHooks.AfterActivityCreate | ActivityHooks.UpdateActivityRequestMigrating |
| backend/migrations/1751618410_activities.go:156-159 | the migrated entry is the first open entry of the old table, whichever activity owns it | `ForeignStore`: activities 1 and 2 are daily, open daily entries 3 (activity 2) and 4 (activity 1); changing activity 1 to weekly moves entry 3 (`ChangeTypeMovesFirstOpen` applied to the facts `FirstOpenCanBeForeign` states) | move the first open entry of the activity whose type changes | not executed | ActivityHooks.FirstOpenCanBeForeign | ActivityHooks.ChangeActivityTypeAtomic |
| backend/migrations/1751618410_activities.go:175-181 | the old entry is deleted before the new one is saved, with no transaction | the delete goes through and the new entry's save is refused: the hook fails and the entry is gone from both tables | all or nothing: a failure leaves both tables as they were | not executed | ActivityHooks.ChangeTypeLosesEntryOnFailedSave | ActivityHooks.MoveEntry |
