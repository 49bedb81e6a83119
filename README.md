# Shipment-tracking triggers and driver-link repair scripts, in Dafny

This project models the server side of a shipment-tracking app built on a
document store and push messaging:

- the Cloud Functions in `functions/index.js`:
  - the status-change and new-load notifications;
  - earnings settlement on delivery;
  - load validation;
  - the location-history retention sweep;
  - the daily overdue reminders.
- the three maintenance scripts that audit and repair the link between a
  load's `driverId` and the driver documents:
  - `scripts/diagnose_load_driver_mismatch.js`;
  - `scripts/fix_load_driver_ids.js`;
  - `scripts/migrate_legacy_loads.js`.

## How the model is built

Collections are sequences of documents (`Store.Doc`), in snapshot order.
The `users` lookups of the triggers are maps. Fields that JavaScript may
find absent are `Option`s (`None` is an absent field; a stored `null` is not modelled). Money is an integer number of cents.
`totalEarnings` can also hold `NaN` (`Store.Num`). Times are integer
milliseconds.

Three JavaScript rules are written out explicitly:

- truthiness (`Store.Truthy`) and the `||` fallback (`Store.Or`);
- `obj[undefined]` looking up the key `"undefined"` (`Store.PropertyKey`);
- `toLowerCase` on ASCII and Latin-1 letters (`Store.Lower`).

A field update merges fields into the document (`Store.ApplyPatch`). A
batch applies its updates in order and commits them all at once
(`Store.Commit`).

The functions and scripts become methods:

- Each handler or script takes the snapshots it reads as parameters.
- Each one returns the push messages it would send, the collection it
  would leave behind, and its counters or exit code.
- Each method is proved against a reference function of its inputs. The
  promised properties are lemmas about those functions.

Module layout:

| file | module | models |
|---|---|---|
| `store.dfy` | `Store` | documents, value rules, writes |
| `triggers.dfy` | `Triggers` | `functions/index.js` |
| `diagnose.dfy` | `Diagnose` | the audit script |
| `fix_ids.dfy` | `FixIds` | the repair script |
| `migrate.dfy` | `Migrate` | the legacy-load migration script |

### Edge behaviour of the earnings handler

- `rate` is added as it is stored, so a delivered load without a rate
  leaves `NaN` as the driver's total (`Triggers.Credit`).
- Every delivery of a transition into `delivered` credits the driver
  again; nothing records that the load was already counted (see
  Findings).
- The driver document is updated, not created: when it is missing, the
  update fails (`failed` in `Triggers.CalculateEarnings`).

## Model

| member | source | states |
|---|---|---|
| Store.ApplyPatch | scripts/fix_load_driver_ids.js:103-106 | an update sets `driverId`, sets `driverName` only when the patch carries one, and leaves every other field as it was |
| Store.ApplyBatchTo | scripts/fix_load_driver_ids.js:103-116 | the queued updates reach a document in order; a document no update addresses is unchanged and keeps its id |
| Store.Commit | scripts/fix_load_driver_ids.js:114-117 | a commit keeps every document, in place and under the same id |
| Store.BatchSplit | scripts/fix_load_driver_ids.js:103-116 | applying two batches in turn is applying their concatenation |
| Store.CommitSplit | scripts/migrate_legacy_loads.js:193-195 | one `update` after another gives the same collection as one batch of them |
| Store.LastDriverIdWins | scripts/migrate_legacy_loads.js:193-195 | when all updates write the same `driverId` and one reaches a document, it ends with that `driverId` |
| Triggers.NotifyLoadStatusChange | functions/index.js:7-32 | no message unless `status` changed; at most one message; it is sent exactly when the load names a user with a truthy token; it goes to that token with the status-change title and payload |
| Triggers.NotifyNewLoad | functions/index.js:35-49 | one message per driver-role user with a truthy token, in snapshot order: the k-th message goes to the k-th such user's token (a token two users share is sent twice) with the new-load title and payload |
| Triggers.NewLoadReachesDrivers | functions/index.js:39-46 | every message carries the new-load title and payload and goes to a driver-role user with a token, and every such user gets one |
| Triggers.Credit | functions/index.js:59-63 | total becomes old total (0 when absent, zero or NaN) plus rate, NaN without a rate; completed count goes up by one; no other driver field changes |
| Triggers.CalculateEarnings | functions/index.js:52-66 | drivers change only on a transition into `delivered` of a load with a truthy `driverId`; then exactly that driver is credited; the update fails exactly when that driver document is missing |
| Triggers.ReplayCreditsTwice | functions/index.js:57-63 | delivering the same transition twice adds the rate twice and two completed loads |
| Triggers.SettleOnce | functions/index.js:57-63 | with a record of credited loads: a load already recorded changes nothing; a triggering load not yet recorded credits its driver as `Credit` does and is recorded; no other driver changes and no other load is recorded |
| Triggers.SettleOnceIdempotent | functions/index.js:57-63 | a redelivered event leaves the ledger as one delivery left it |
| Triggers.ValidateLoad | functions/index.js:69-78 | "Load number required" is listed iff `loadNumber` is falsy; "Valid rate required" iff the rate is absent, zero or negative; no other message, and in that order; status `failed` iff there is an error, so `passed` iff the load has a truthy number and a positive rate; no other field changes |
| Triggers.ValidationWriteTriggersNothing | functions/index.js:76 | the validation write changes no `status`, so neither update handler acts on it |
| Triggers.NoOpUpdateHasNoEffects | functions/index.js:13 | an update that keeps `status` triggers neither the notification nor the earnings handler |
| Triggers.CleanupOldLocationData | functions/index.js:81-88 | at most 500 records deleted and `deleted` is their number; only records older than 30 days are removed; every other record is kept unchanged; the stale backlog shrinks by min(500, backlog) |
| Triggers.OverdueQueryMeaning | functions/index.js:94 | the query returns exactly the loads `assigned` or `in_transit` whose delivery date is before today |
| Triggers.ReminderTokensMeaning | functions/index.js:96-107 | each token reached belongs to a queried load's driver, and every queried load whose driver has a token contributes it |
| Triggers.RemindDriver | functions/index.js:97-106 | a reminder is produced iff the load names a user with a truthy token; it goes to that token with the overdue title |
| Triggers.CollectReminders | functions/index.js:96-107 | the loop produces one overdue message per token, in load order |
| Triggers.SendOverdueLoadReminders | functions/index.js:91-110 | `sent` counts the messages; the k-th message goes to the token of the k-th queried load whose driver has one, so a driver with several overdue loads gets one reminder per load; each goes to the driver of an overdue load; every overdue load whose driver has a token gets one |
| Triggers.RemindersReachOverdueDrivers | functions/index.js:96-109 | the reminder list built from the tokens reaches exactly the drivers of overdue loads |
| Diagnose.BuildDriverMap | scripts/diagnose_load_driver_mismatch.js:61-68 | the map has one entry per driver document, keyed by document id, holding its name and email |
| Diagnose.FindByName | scripts/diagnose_load_driver_mismatch.js:101-103 | the first driver whose lower-cased name equals the key, or the first unnamed driver met before any match, or none |
| Diagnose.ClassifyMeaning | scripts/diagnose_load_driver_mismatch.js:91-109 | a load is valid iff its `driverId` is a driver document id; a suggestion is the first driver with a matching name; no suggestion means every driver is named and none matches; a crash means an unnamed driver came before any match |
| Diagnose.Examine | scripts/diagnose_load_driver_mismatch.js:90-109 | one loop iteration with the driver map gives the verdict `ClassifyMeaning` describes |
| Diagnose.CountsCoverVerdicts | scripts/diagnose_load_driver_mismatch.js:93-110 | every load reached is counted once, as valid or as mismatched |
| Diagnose.AuditStaysCrashed | scripts/diagnose_load_driver_mismatch.js:132-134 | once the name search has thrown on some load, no later load changes the report |
| Diagnose.AuditVerdicts | scripts/diagnose_load_driver_mismatch.js:81-113 | the report holds one verdict per load reached, in load order, each the classification of that load; a complete report covers every load; an incomplete one ends with the load whose search threw |
| Diagnose.AuditCompletes | scripts/diagnose_load_driver_mismatch.js:81-113 | the audit completes iff no load's name search throws |
| Diagnose.AuditCounts | scripts/diagnose_load_driver_mismatch.js:91-110 | the two counters count the valid and mismatched verdicts; a complete audit has no crash and its counters add up to the number of loads |
| Diagnose.DiagnoseMismatch | scripts/diagnose_load_driver_mismatch.js:51-137 | with distinct driver ids, the loop over the loads produces the report `Audit` defines, whose verdict order, completion and counters the three lemmas above state |
| FixIds.NameLookup | scripts/fix_load_driver_ids.js:70-75 | the by-name map refers to the last driver with that lower-cased name, and there is none when no driver has it |
| FixIds.IndexDrivers | scripts/fix_load_driver_ids.js:67-75 | the maps are built iff every driver has a name; by-id keys are the document ids; by-name keys are the lower-cased names, each mapped to the last driver that has it |
| FixIds.StepsCoverLoads | scripts/fix_load_driver_ids.js:79-112 | queued updates plus skipped plus unmatched loads equal the number of loads |
| FixIds.FixDriverIds | scripts/fix_load_driver_ids.js:58-131 | a missing driver name aborts the run with no write; otherwise the batch is the planned updates, `fixedCount` is their number, `skippedCount` counts loads whose `driverId` is a driver key, and the batch is committed iff it is not empty |
| FixIds.PlanPrefixReaches | scripts/fix_load_driver_ids.js:83-112 | after the updates of the first n loads, exactly those of them that were fixed are patched |
| FixIds.CommitIsRepair | scripts/fix_load_driver_ids.js:103-117 | the committed batch patches every fixed load and leaves skipped and unmatched loads unchanged |
| FixIds.RepairedStep | scripts/fix_load_driver_ids.js:88-111 | when the written uid is a document id, a fixed load is skipped on the next run, a valid load stays valid, an unmatched load stays unmatched |
| FixIds.NoFixesNoPlan | scripts/fix_load_driver_ids.js:83-112 | loads none of which needs a fix queue no update |
| FixIds.RerunQueuesNothing | scripts/fix_load_driver_ids.js:88-111 | a second run over the repaired loads queues zero updates when the written uid is a document id |
| FixIds.RerunCounts | scripts/fix_load_driver_ids.js:88-111 | when the written uid is a document id, the fixed loads are counted as skipped on the second run and the unmatched count is unchanged |
| FixIds.SpreadUidDefeatsRerun | scripts/fix_load_driver_ids.js:74 | a driver whose stored `uid` differs from its document id makes the second run queue the same update again |
| FixIds.FirstSuggestedLastApplied | scripts/fix_load_driver_ids.js:74 | with two drivers sharing a lower-cased name, the audit suggests the first and the repair writes the last |
| Migrate.FindPrefixed | scripts/migrate_legacy_loads.js:48 | the first argument with the prefix, or none when no argument has it |
| Migrate.UpToEquals | scripts/migrate_legacy_loads.js:49 | the longest prefix without `=`, ended by `=` or by the string's end |
| Migrate.ParseArgs | scripts/migrate_legacy_loads.js:46-49 | dry run iff `--fix` is absent; a default driver is read iff some argument starts with `--default-driver=` |
| Migrate.ParseArgsRoundTrip | scripts/migrate_legacy_loads.js:46-49 | `--fix --default-driver=<id>` with an id free of `=` reads back as fix mode with that id |
| Migrate.UpToEqualsWhole | scripts/migrate_legacy_loads.js:49 | a value with no `=` is kept whole |
| Migrate.ChoiceOf | scripts/migrate_legacy_loads.js:56-61 | name defaults to `Unknown` and truck number to `N/A` when falsy, so neither is empty; active unless stored as `false` |
| Migrate.GetDriversList | scripts/migrate_legacy_loads.js:51-64 | one entry per driver document, in order, with those defaults |
| Migrate.TrimStart | scripts/migrate_legacy_loads.js:75 | drops exactly the leading white space of the string |
| Migrate.TrimEnd | scripts/migrate_legacy_loads.js:75 | drops exactly the trailing white space of the string |
| Migrate.TrimEmptyIffBlank | scripts/migrate_legacy_loads.js:75 | `trim()` is empty iff the string is all white space |
| Migrate.LegacyMeaning | scripts/migrate_legacy_loads.js:75 | a load is legacy iff its `driverId` is absent, empty or white space only |
| Migrate.LegacyLoadsIds | scripts/migrate_legacy_loads.js:72-85 | the scan reports exactly the ids of the legacy loads |
| Migrate.LegacyIdsDistinct | scripts/migrate_legacy_loads.js:72-85 | the scan reports each legacy load once |
| Migrate.FindLegacyLoads | scripts/migrate_legacy_loads.js:66-88 | the pushed entries are the legacy loads' summaries, in snapshot order |
| Migrate.FixPatch | scripts/migrate_legacy_loads.js:92-97 | `driverId` always written; `driverName` written iff the given name is not empty |
| Migrate.FixLoad | scripts/migrate_legacy_loads.js:90-101 | the addressed load gets the new `driverId` and, when given, `driverName`; nothing else changes in it or in any other load |
| Migrate.Dispatch | scripts/migrate_legacy_loads.js:128-141 | -1 exits, 0 skips, 1..n picks driver n-1, anything else (unparsable included) is rejected |
| Migrate.InteractivePlan | scripts/migrate_legacy_loads.js:120-142 | every update comes from an answer that picked a driver, addresses that answer's load and writes the picked driver's id and name; there are no more updates than loads |
| Migrate.ChosenDriverAssigned | scripts/migrate_legacy_loads.js:136-138 | an answer `c` in 1..n with no -1 before it updates its load with driver `c-1`'s id and name |
| Migrate.PlanIdsDistinct | scripts/migrate_legacy_loads.js:120-142 | loads with distinct ids get updates with distinct ids, so no load is updated twice |
| Migrate.ExitLeavesRestUntouched | scripts/migrate_legacy_loads.js:130-132 | after a -1 answer no later load is updated |
| Migrate.SkippedLoadNotUpdated | scripts/migrate_legacy_loads.js:133-141 | a load answered 0, or with a rejected choice, gets no update |
| Migrate.InteractiveFix | scripts/migrate_legacy_loads.js:103-145 | the session leaves the collection as committing the interactive plan would |
| Store.SamePatchApplied | scripts/migrate_legacy_loads.js:193-195 | a batch whose updates all carry one patch applies it once to each document it addresses and leaves the rest unchanged |
| Migrate.AssignPlanReaches | scripts/migrate_legacy_loads.js:193-195 | the default-driver plan patches each legacy load once and leaves every other load alone |
| Migrate.AssignPlanCommitted | scripts/migrate_legacy_loads.js:184-196 | after the commit every legacy load carries the default driver's id and (when it has one) its name, with no other field changed; every other load is unchanged |
| Migrate.AssignAll | scripts/migrate_legacy_loads.js:193-195 | the loop leaves the collection as committing the default-driver plan would |
| Migrate.DefaultAssignmentClearsLegacy | scripts/migrate_legacy_loads.js:184-196 | after a default driver with a non-blank id is assigned, a new scan finds no legacy load |
| Migrate.FindDriver | scripts/migrate_legacy_loads.js:186 | the first driver with that id, or none when no driver has it |
| Migrate.RunMigration | scripts/migrate_legacy_loads.js:147-204 | no legacy loads: exit 0, no write; dry run: exit 0, no write; no drivers: exit 1, no write; unknown default driver: exit 1, no write; known default driver: every legacy load assigned; otherwise the interactive plan is applied and the exit code is 0 |

## Left out

- Credential loading, app initialisation and `process.exit`: only the exit code is modelled, as `Migrate.Outcome.exitCode`.
- Console output and report formatting: only the counts, verdicts and suggestions the logs print are modelled.
- The text of push-message bodies is not modelled. Push sending, `Promise.all` and failed sends are not modelled either: a handler returns the messages it would send.
- Concurrency is not modelled: races between a read and the following write, and the same event running twice at once. A redelivery is modelled only as a second call.
- `Store.Commit`: the document store's 500-write limit per batch is not modelled; a larger repair batch commits in the model.
- `Store.LowerChar`: case mapping outside ASCII and Latin-1 is not modelled.
- Property names inherited from `Object.prototype` (such as `constructor`) are not modelled. They would make a map lookup succeed for a key no document has.
- Object key order is taken as insertion order; JavaScript lists integer-like keys first, and that is not modelled.
- Fields stored as `null` are not modelled: `None` stands for an absent field only. JavaScript tells the two apart in three places the model does not capture. In `functions/index.js:61`, `total + null` keeps the total where an absent rate gives `NaN`. In `functions/index.js:13`, a `status` going from `null` to absent counts as a change and sends a notification. In `scripts/fix_load_driver_ids.js:74`, a stored `uid: null` overrides the document id, so `driverId: null` is written and the next run fixes the load again.
- A field holding a value of the wrong type (a number `driverId`, a string `rate`) is not modelled. Neither are the `TypeError`s it would raise, except a missing driver name in the two audit scripts.
- Updating a load that no longer exists is not modelled: every id the scripts update comes from the same snapshot.
- Reading the clock and computing `today` in the New York time zone: `now` and `startOfToday` are inputs.
- `Triggers.CleanupOldLocationData`: which 500 stale records the store returns is a parameter, constrained only to be distinct stale records, as many as the limit allows.
- `readline` and `parseInt` are not modelled: the operator's answers are an input list of optional integers. Once the list is exhausted, no further load is processed; the script would wait for input instead.
- `Diagnose.DiagnoseMismatch`: that the audit issues no writes follows from its signature, since it receives no collection to change.
- `Diagnose.DiagnoseMismatch` requires the driver documents to have distinct ids. `FixIds.CommitIsRepair` requires the same of the load documents. The store guarantees both.
- The `createdAt` field of a legacy-load entry and its date formatting only feed the console and are not modelled.

## Findings

| source | as written | input that shows it | evidently intended | confidence | as-written member | corrected member |
|---|---|---|---|---|---|---|
| scripts/fix_load_driver_ids.js:74 | the by-name entry is `{ uid, ...data }`, so a `uid` field in the driver document overrides the document id that the skip test on line 88 compares against | driver `u2` named `B` with stored `uid` `legacy-uid`; load `L1` with `driverId` `Bob` and `driverName` `B`: the run writes `legacy-uid`, which is not a driver key, so the next run fixes `L1` again | write the driver document id, so a repaired load is skipped next time and a second run queues nothing | medium, not executed | FixIds.SpreadUidDefeatsRerun | FixIds.RerunQueuesNothing |
| functions/index.js:57-63 | every delivery of a transition into `delivered` adds the rate again | the same (`assigned` → `delivered`, rate 100) event delivered twice: the total rises by 200 and the completed count by 2 | credit each load once, whatever the number of deliveries | high, not executed | Triggers.ReplayCreditsTwice | Triggers.SettleOnceIdempotent |
