# Sport manager: a verified model of the workout bookkeeping

The sport manager is a Laravel and Vue fitness tracker with these records:

- A user keeps **exercises**.
- A user builds **trainings**, which are templates. A training lists exercises through **training-exercise links**, ordered by `order_index` from 0.
- A user starts **training sessions**, either blank or cloned from a training.
- A session holds **session-exercises**, and each of those holds **sets**. Sets are numbered by `set_index` from 1.

This project models the parts of the application that keep these tables consistent:

- **Sets** (`SessionSets`, set_controllers.dfy): covers the JSON API controller and the web controller.
  - Append takes the next number and writes the rest time onto the previous set.
  - The API applies a partial update; the web form applies a full overwrite.
  - Complete stamps the set's `completed_at`.
  - Delete shifts the later sets down by one.
- **Training links** (`TrainingExercises`, training_exercises.dfy): add at max + 1, patch the defaults, the transactional bulk reorder, and remove.
- **Sessions** (`Sessions`, sessions.dfy): start a session blank or from a template, build the nested session view, list the trainings to start from, and the session model's counts.
- **Statistics** (`Stats`, stats.dfy): the per-exercise progress page. It covers the date window, max weight per day, volume per session, average rest, personal records and the summary counts.
- **Client mirror** (`ClientStore`, client_store.dfy): the browser-side session store. It patches its copy of the session tree after each API answer.
- **Form requests, policies and model predicates** (`Requests`, `Policies`, `Models`).

All tables live in one `Database.Db` class, which holds a `map<Id, Record>` per table and the next auto-increment id. A controller action is a method on a `Db`. Its postcondition ties the new tables to a function of the old ones (`AfterAppend`, `Patch`, `Overwrite`, `Complete`, `AfterDelete`, `Reordered`, `Cloned`, `Without`). Lemmas then prove what the action promises about those functions:

- contiguous numbering;
- that nothing else changes;
- idempotence;
- ordering.

An action that can fail answers a `Result`, where `Error` is one of:

- `NotFound` (404);
- `Forbidden` (403);
- `Invalid(fields)` (422);
- `StorageError` (a rejected write);
- `StartFailed` (the session form's generic failure).

The refusals are checked in the order the framework applies them:

- Set actions: route binding, then the form request, then the controller's owner check.
- Training-link actions: binding, then the policy, then validation.

A refused action changes nothing. A transaction is modelled by checking everything first, so no partial write is possible.

Units:

- Timestamps are whole seconds (UTC). A calendar date is the day number `t / 86400`.
- Weight and distance are `decimal(8,2)` columns, carried as integer hundredths, so volumes (reps × weight) are exact.
- The clock is a parameter (`now`).

Modules: `Wrappers` (Option, Result, Error), `Models`, `Tables` (generic facts about a numbering column: density, pigeonhole, ordering), `Requests`, `Policies`, `Database`, `SessionSets`, `TrainingExercises`, `Sessions`, `Stats`, `ClientStore`.

## Model

| member | source | states |
|---|---|---|
| Models.SessionStateIsExclusive | app/Models/TrainingSession.php:36-42 | A session is completed exactly when `completed_at` is set and in progress exactly when it is not, so exactly one of the two holds. |
| Models.SessionIsCompleted | app/Models/TrainingSession.php:36-38 | `isCompleted`: holds exactly when `completed_at` is set. It is a definition; SessionStateIsExclusive states its relation to SessionIsInProgress. |
| Models.SessionIsInProgress | app/Models/TrainingSession.php:40-42 | `isInProgress`: holds exactly when `completed_at` is null. It is a definition; SessionStateIsExclusive is its partner. |
| Models.SetIsCompleted | app/Models/SessionSet.php:35-37 | A set is completed exactly when its `completed_at` is set. It is a definition, used by the nested session view (Sessions.ShowSlot). |
| Models.QuotientTowardZero | app/Models/TrainingSession.php:52 | The `(int)` cast of a quotient: it truncates toward zero, for negative and for non-negative numerators. |
| Models.DurationMinutes | app/Models/TrainingSession.php:47-53 | Null iff either timestamp is missing. Otherwise it is the whole minutes between start and completion, truncated toward zero, and negative when completion precedes the start. |
| Models.DurationIsAntisymmetric | app/Models/TrainingSession.php:52 | Swapping the two timestamps negates the duration. |
| Policies.SessionPolicy | app/Policies/TrainingSessionPolicy.php:12-42 | `viewAny` and `create` are always granted. `view`, `update` and `delete` are granted iff the user owns the session. |
| Policies.ExercisePolicy | app/Policies/ExercisePolicy.php:12-42 | The same rule as SessionPolicy, keyed on the exercise's owner. |
| Policies.TrainingPolicy | app/Policies/TrainingPolicy.php:12-42 | The same rule as SessionPolicy, keyed on the training's owner. |
| Policies.RecordAbilitiesAgree | app/Policies/TrainingPolicy.php:19-42 | View, update and delete are granted together, and the owner is granted every ability on all three kinds of record. |
| Policies.PoliciesDecideAlike | app/Policies/ExercisePolicy.php:12-42 | For records with the same owner, the three policies grant each ability alike. |
| Requests.IntegerOf | app/Http/Requests/StoreSessionSetRequest.php:23 | `integer` accepts whole numbers, including a decimal with zero hundredths, and the accepted value agrees with its numeric reading. |
| Requests.NumberOf | app/Http/Requests/StoreSessionSetRequest.php:24 | `numeric` accepts exactly the integer and decimal values. |
| Requests.Failures | app/Http/Requests/StoreSessionSetRequest.php:22-29 | A key fails iff it is present, has a rule, and its value breaks that rule. Keys without a rule are never checked. |
| Requests.Validated | app/Http/Controllers/Api/SessionSetApiController.php:90 | `validated()` keeps exactly the keys that are present and have a rule, with their values unchanged. |
| Requests.StoreSetRulesMeaning | app/Http/Requests/StoreSessionSetRequest.php:22-29 | A set body passes iff every field is absent, null, or in range: reps 1–500, weight 0–9999.99, duration 1–86400, distance 0–9999.99, notes ≤ 1000 characters, rest 0–3600. Both directions are proved. |
| Requests.UpdateSetRulesMeaning | app/Http/Requests/UpdateSessionSetRequest.php:19-25 | The same iff for the update table, which has no rest-time rule. |
| Requests.EmptyBodyPasses | app/Http/Requests/StoreSessionSetRequest.php:22-29 | Every field is optional, so an empty body passes any rule table. |
| Requests.UpdateNeverCarriesRest | app/Http/Requests/UpdateSessionSetRequest.php:19-25 | The validated update never contains `rest_seconds_actual`, and holds only the five measurement keys. |
| Requests.StoredSetFieldsInRange | app/Http/Requests/StoreSessionSetRequest.php:23-28 | After a store body passes, every non-null column value taken from it is within its rule's range. |
| Requests.StatsFilterErrors | app/Http/Requests/StatsFilterRequest.php:20-25 | A start or end that is not a date fails `date`. Nothing bails, so `after_or_equal` runs on every present, non-null end. It fails iff the start has a timestamp and either the end has an earlier one, or the end is unreadable and the start's timestamp is not 0 (PHP compares null with an int as booleans). Absent or null parameters always pass. |
| Requests.DatesCompareByInstant | app/Http/Requests/StatsFilterRequest.php:23 | Between two dates, the end fails iff it is an earlier instant. Between two dates at the same time of day (plain dates), it fails iff it is an earlier day. |
| Requests.UnreadableEndFailsBoth | app/Http/Requests/StatsFilterRequest.php:23 | An unreadable end after a start date other than 1970-01-01 00:00 gives both end-date errors. A missing or null start never makes the comparison fail. |
| Requests.FilterMessage | app/Http/Requests/StatsFilterRequest.php:33-48 | The message of each failure: the framework's `date` line with the custom attribute names, and the custom `after_or_equal` message. It is a definition, with no contract. |
| Requests.ExerciseStoreFailures | app/Http/Requests/ExerciseStoreRequest.php:21-34 | The name fails unless it is a non-blank string of at most 255 characters not yet used by this user. The type must be one of the four. The description (≤ 1000) and muscle group (≤ 255) are optional. |
| Requests.ExerciseNamesArePerOwner | app/Http/Requests/ExerciseStoreRequest.php:27-29 | Adding another user's exercise never changes which fields fail. |
| Requests.ExerciseNameRepeatFails | app/Http/Requests/ExerciseStoreRequest.php:27-29 | Once the user owns an exercise with a given name, storing that name again fails on `name`. |
| Requests.TrainingStoreFailures | app/Http/Requests/TrainingStoreRequest.php:21-33 | The name is required, non-blank, at most 255 characters and unused among the user's trainings. The description (≤ 1000) and notes (≤ 2000) are optional. |
| Requests.TrainingNamesArePerOwner | app/Http/Requests/TrainingStoreRequest.php:27-29 | Another user's training never makes a name fail. |
| Tables.OrderByKey | app/Http/Controllers/TrainingSessionController.php:114-120 | `orderBy` on a group: it lists every row of the group exactly once, in ascending order of the column. |
| Database.Db.FreshId | app/Http/Controllers/Api/SessionSetApiController.php:51 | An auto-increment id is not in any table, and the counter moves past it. |
| SessionSets.NextIndex | app/Http/Controllers/Api/SessionSetApiController.php:48 | The next number exceeds every sibling's number. It is one more than an existing sibling's number, or 1 when there are no siblings. |
| SessionSets.NewSet | app/Http/Controllers/Api/SessionSetApiController.php:51-59 | The created set row. It is a definition; AppendedSetFields states its fields. |
| SessionSets.AfterAppend | app/Http/Controllers/Api/SessionSetApiController.php:47-72 | The sets table after an append: the new row, plus the rest written onto the previous set. It is a definition; AppendChangesOnlyPrevious and AppendKeepsContiguous state what it keeps. |
| SessionSets.NextIndexIsCountPlusOne | app/Http/Controllers/SessionSetController.php:28 | With the siblings numbered 1..n, `max + 1` is n + 1. |
| SessionSets.PreviousSetExists | app/Http/Controllers/Api/SessionSetApiController.php:62-72 | With contiguous numbering, the lookup of the set numbered next − 1 always finds one. |
| SessionSets.AppendedSetFields | app/Http/Controllers/Api/SessionSetApiController.php:51-59 | The new set belongs to its session-exercise, has the new number, and is stamped now. Its own rest is null. Each measurement is null iff absent or null in the body, and reps and weight lie in their ranges. |
| SessionSets.AppendChangesOnlyPrevious | app/Http/Controllers/Api/SessionSetApiController.php:62-72 | Append adds exactly the new row. The only other row it can change is the previous set, and only its rest time. That changes only when the index is > 1 and a rest was given, and then it takes the given value. |
| SessionSets.AppendKeepsContiguous | app/Http/Controllers/SessionSetController.php:28-52 | Appending at `max + 1` keeps every session-exercise's numbering 1..n, and grows the target's count by one. |
| SessionSets.Patch | app/Http/Controllers/Api/SessionSetApiController.php:93-113 | The API update of one row: each validated key overwrites its column. It is a definition; PatchChangesOnlyPresentKeys and PatchIsIdempotent state its meaning. |
| SessionSets.Overwrite | app/Http/Controllers/SessionSetController.php:69-75 | The web update: all five measurement columns are taken from the body, null when absent. It is a definition; OverwriteIsPatchWithNulls relates it to Patch. |
| SessionSets.Complete | app/Http/Controllers/SessionSetController.php:90-92 | Completing a set: `completed_at` becomes now. It is a definition; CompleteRestamps states that nothing else changes. |
| SessionSets.PatchChangesOnlyPresentKeys | app/Http/Controllers/Api/SessionSetApiController.php:93-113 | The partial update leaves the row's session-exercise, index, completion and rest time alone. An absent key keeps its field, and a key present with null clears it. |
| SessionSets.PatchIsIdempotent | app/Http/Controllers/Api/SessionSetApiController.php:93-113 | An empty patch changes nothing, and applying the same patch twice equals applying it once. |
| SessionSets.OverwriteIsPatchWithNulls | app/Http/Controllers/SessionSetController.php:69-75 | The web overwrite equals the API patch with every absent measurement key sent as null. |
| SessionSets.CompleteRestamps | app/Http/Controllers/SessionSetController.php:90-92 | Completing marks the set completed and changes no other field. Completing again restamps the time. |
| SessionSets.ReplaceKeepsContiguous | app/Http/Controllers/Api/SessionSetApiController.php:113 | Rewriting a row without moving it leaves every numbering, and contiguity, as it was. |
| SessionSets.AfterDelete | app/Http/Controllers/Api/SessionSetApiController.php:136-147 | The sets table after a delete: the row is gone and its later siblings move down by one. It is a definition; DeleteShiftsOnlyLaterSiblings, DeleteKeepsContiguous and DeleteRenumbersGroup state its meaning. |
| SessionSets.DeleteShiftsOnlyLaterSiblings | app/Http/Controllers/Api/SessionSetApiController.php:136-147 | Delete removes exactly the deleted row. It decrements exactly the later siblings, by one, and leaves every other row unchanged. |
| SessionSets.DeleteKeepsContiguous | app/Http/Controllers/SessionSetController.php:107-121 | Siblings numbered 1..n before a delete are numbered 1..n−1 after it, and every other group keeps its numbering. |
| SessionSets.DeleteRenumbersGroup | app/Http/Controllers/SessionSetController.php:107-121 | The target group's numbering after the delete is the old numbering with the gap closed. |
| SessionSets.SetRequestCheck | app/Http/Controllers/Api/SessionSetApiController.php:84-88 | The refusal order: 404 for a missing record, then 422 for failing fields, then 403 for a non-owner. An action is accepted iff none applies. |
| SessionSets.StoreSet | app/Http/Controllers/Api/SessionSetApiController.php:39-72 | The API store. It fails iff refused, with that error and no change. Otherwise it sets the table to AfterAppend at NextIndex, leaves the other tables alone, and keeps numbering contiguous. The web form's `store` (SessionSetController.php, lines 18-52) performs the same refusals and writes. |
| SessionSets.Append | app/Http/Controllers/Api/SessionSetApiController.php:47-72 | The accepted writes. Append inserts under a fresh id at `max + 1`, and writes the rest onto the set found at index − 1. |
| SessionSets.NextSetIndex | app/Http/Controllers/Api/SessionSetApiController.php:48 | Computes NextIndex. |
| SessionSets.FindSet | app/Http/Controllers/Api/SessionSetApiController.php:63-65 | What `where('set_index', i)->first()` may answer: a sibling with that number, or nothing only when none has it. |
| SessionSets.ApiUpdateSet | app/Http/Controllers/Api/SessionSetApiController.php:84-121 | Refused as by SetRequestCheck, with no change. Otherwise it stores `Patch(row, validated)` and answers the stored row. Contiguity is kept. |
| SessionSets.Replace | app/Http/Controllers/Api/SessionSetApiController.php:113 | Rewrites one row in place and keeps contiguity. |
| SessionSets.WebUpdateSet | app/Http/Controllers/SessionSetController.php:60-78 | Refused as above. Otherwise the row becomes `Overwrite(row, validated)`. |
| SessionSets.CompleteSet | app/Http/Controllers/SessionSetController.php:83-95 | 404, then 403, with no body to validate. Otherwise the row becomes `Complete(row, now)`. |
| SessionSets.DeleteAndShift | app/Http/Controllers/Api/SessionSetApiController.php:136-147 | The transaction's loop. Afterwards the table is exactly `AfterDelete(old, d)`. |
| SessionSets.LaterSiblings | app/Http/Controllers/Api/SessionSetApiController.php:141-143 | The rows the loop visits: exactly the later siblings, each once, in ascending `set_index`. |
| SessionSets.ApiDestroySet | app/Http/Controllers/Api/SessionSetApiController.php:127-158 | Refused with no change. Otherwise the table becomes AfterDelete and the answer lists the remaining siblings, each once, in ascending order. With contiguous numbering before, the k-th listed has number k + 1. |
| SessionSets.WebDestroySet | app/Http/Controllers/SessionSetController.php:100-124 | Refused with no change. Otherwise the table becomes AfterDelete, and contiguity is kept. |
| TrainingExercises.LinkRequestCheck | app/Http/Controllers/TrainingExerciseController.php:17-26 | The refusal order: 404 for binding, then 403 from the policy, then 422 from validation. |
| TrainingExercises.ExistingId | app/Http/Controllers/TrainingExerciseController.php:21 | `exists:exercises,id` holds iff the value is an integer naming an existing exercise. |
| TrainingExercises.StoreLinkFailures | app/Http/Controllers/TrainingExerciseController.php:20-26 | `exercise_id` fails iff it names no exercise. The body passes iff that holds and sets 1–20, reps 1–500, rest 0–600 and notes ≤ 1000 all pass. |
| TrainingExercises.StoreLinkCheck | app/Http/Controllers/TrainingExerciseController.php:17-31 | An accepted add has the user's own training and an exercise that exists and belongs to the user (the `firstOrFail` on line 29). |
| TrainingExercises.NextOrder | app/Http/Controllers/TrainingExerciseController.php:34-38 | `(max ?? -1) + 1`: it exceeds every link's order, and is one past an existing order or 0 when the training has no links. |
| TrainingExercises.NewLink | app/Http/Controllers/TrainingExerciseController.php:36-43 | The created link row. It is a definition; NewLinkFields states its fields and defaults. |
| TrainingExercises.NewLinkFields | app/Http/Controllers/TrainingExerciseController.php:36-43 | The new link has the given training, exercise and order. The defaults are null iff absent or null, and lie in their ranges. The rest time is 90 when absent or null. |
| TrainingExercises.NextOrderIsCount | app/Http/Controllers/TrainingExerciseController.php:34 | With links ordered 0..n−1, the new one gets n. |
| TrainingExercises.AddKeepsOrder | app/Http/Controllers/TrainingExerciseController.php:34-43 | Adding at max + 1 keeps every training's orders distinct, and keeps them dense from 0. |
| TrainingExercises.AddLink | app/Http/Controllers/TrainingExerciseController.php:17-51 | It fails iff refused, with no change. Otherwise it inserts NewLink under a fresh id at NextOrder, keeping distinct and dense orders. |
| TrainingExercises.NextLinkOrder | app/Http/Controllers/TrainingExerciseController.php:34 | Computes NextOrder. |
| TrainingExercises.LinkCheck | app/Http/Controllers/TrainingExerciseController.php:56-57 | The link exists, the user may update its training, and the body passes. |
| TrainingExercises.PatchLink | app/Http/Controllers/TrainingExerciseController.php:59-66 | The link update: the validated keys overwrite their columns, or a storage error for a null rest. It is a definition; PatchLinkMeaning and PatchLinkIsIdempotent state its meaning. |
| TrainingExercises.PatchLinkMeaning | app/Http/Controllers/TrainingExerciseController.php:59-66 | On a valid body the update fails iff it carries an explicit null rest time, which the NOT NULL column rejects. Otherwise present keys take their values and absent keys keep theirs, with training, exercise and order unchanged. |
| TrainingExercises.PatchLinkIsIdempotent | app/Http/Controllers/TrainingExerciseController.php:66 | Sending the same update twice equals sending it once. |
| TrainingExercises.RewriteKeepsOrders | app/Http/Controllers/TrainingExerciseController.php:66 | Rewriting a link at its place leaves every training's orders unchanged. |
| TrainingExercises.UpdateLink | app/Http/Controllers/TrainingExerciseController.php:56-73 | Refused with no change, or the result of PatchLink: on success the row is replaced, on a storage error nothing changes. Orders never change. |
| TrainingExercises.ReorderFailures | app/Http/Controllers/TrainingExerciseController.php:81-85 | `exercises` may be a JSON list or a JSON object, since `array` accepts both. A missing, empty or non-array value fails on `exercises`. The body passes iff every entry has an existing link id and an integer order ≥ 0. A failing entry is reported under its own key, `exercises.<key>.id` or `exercises.<key>.order_index`. |
| TrainingExercises.ReorderCheck | app/Http/Controllers/TrainingExerciseController.php:78-85 | Accepted only for the user's own training and a passing body. |
| TrainingExercises.Moves | app/Http/Controllers/TrainingExerciseController.php:88-95 | One move per item, in body order. |
| TrainingExercises.MoveOf | app/Http/Controllers/TrainingExerciseController.php:83-84 | A move carries the item's existing id and its order. |
| TrainingExercises.Reordered | app/Http/Controllers/TrainingExerciseController.php:88-96 | Applying the moves in turn keeps the same rows. |
| TrainingExercises.LastOrder | app/Http/Controllers/TrainingExerciseController.php:88-96 | A link never listed keeps its order. A link listed last takes that last order. |
| TrainingExercises.ReorderedRows | app/Http/Controllers/TrainingExerciseController.php:93-95 | Each row after the loop differs only in `order_index`, which is the last order listed for it, or its own. |
| TrainingExercises.LastOrderOfOnly | app/Http/Controllers/TrainingExerciseController.php:93-95 | A link listed once gets exactly the listed order. |
| TrainingExercises.LastOrderIsIdempotent | app/Http/Controllers/TrainingExerciseController.php:93-95 | Looking the order up again gives the same value. |
| TrainingExercises.ReorderIsIdempotent | app/Http/Controllers/TrainingExerciseController.php:87-97 | Replaying the same reorder changes nothing more. |
| TrainingExercises.ReorderKeepsOtherTrainings | app/Http/Controllers/TrainingExerciseController.php:89-91 | When every listed link is in this training, no other training's orders change. |
| TrainingExercises.ReorderArrangesDensely | app/Http/Controllers/TrainingExerciseController.php:88-96 | The orders are dense afterwards if the body lists every link once, with distinct orders 0..n−1. The controller itself checks none of this. |
| TrainingExercises.ApplyMoves | app/Http/Controllers/TrainingExerciseController.php:87-97 | The transaction succeeds iff every listed link belongs to the training, and then the table becomes Reordered. Otherwise nothing persists. |
| TrainingExercises.Reorder | app/Http/Controllers/TrainingExerciseController.php:78-102 | Refused with no change. Otherwise it is all or nothing: success iff every move is in the training, with a 404 and no change if not. |
| Tables.Without | app/Http/Controllers/TrainingExerciseController.php:110-111 | Exactly the removed link disappears, and the other rows are unchanged. |
| TrainingExercises.RemoveLeavesGap | app/Http/Controllers/TrainingExerciseController.php:110-111 | The orders are not renumbered. Distinct orders stay distinct. Removing any link but the last of a dense 0..n−1 numbering leaves it no longer dense. |
| TrainingExercises.RemoveLink | app/Http/Controllers/TrainingExerciseController.php:107-123 | Refused (404, 403) with no change, or the table becomes Tables.Without of the link. |
| Sessions.StartCheck | app/Http/Controllers/TrainingSessionController.php:53-66 | The store transaction throws iff the template is not one of the user's trainings, or a blank session's body has no `name`. Either way the answer is the generic failure. |
| Sessions.SessionName | app/Http/Controllers/TrainingSessionController.php:50-66 | The session's name: the template's name, or the name given for a blank session. It is a definition, stated again by CreateSession's contract. |
| Sessions.NewSession | app/Http/Controllers/TrainingSessionController.php:69-76 | The session is the user's, has the given training, starts now, and is in progress. |
| Sessions.CopyOf | app/Http/Controllers/TrainingSessionController.php:81-85 | A session-exercise cloned from a link carries the link's exercise, place and notes. It is a definition; ClonedCopy states it over the whole clone. |
| Sessions.Cloned | app/Http/Controllers/TrainingSessionController.php:79-87 | The session-exercises table after the copy loop. It is a definition; ClonedKeys, ClonedKeepsRows, ClonedCopy, CloneFollowsTemplate and ClonedCount state its meaning. |
| Sessions.ClonedKeys | app/Http/Controllers/TrainingSessionController.php:80-86 | Cloning adds exactly the ids first..first+n−1. |
| Sessions.ClonedKeepsRows | app/Http/Controllers/TrainingSessionController.php:80-86 | Cloning changes no existing session-exercise. |
| Sessions.ClonedCopy | app/Http/Controllers/TrainingSessionController.php:80-86 | The i-th copy carries the i-th link's exercise, order and notes, and nothing else. |
| Sessions.CloneFollowsTemplate | app/Http/Controllers/TrainingSessionController.php:57-59 | Iterating the links in order, the session's exercises are exactly the new rows, with the template's orders, one per link. Distinct orders stay distinct, and dense orders stay dense. |
| Sessions.ClonedCount | app/Http/Controllers/TrainingSessionController.php:80-86 | The session gets as many exercises as the training has links. |
| Sessions.CloneTemplate | app/Http/Controllers/TrainingSessionController.php:79-87 | The loop. Afterwards the table is exactly Cloned(old, session, links, order, first id), and one id is used per link. |
| Sessions.OpenSession | app/Http/Controllers/TrainingSessionController.php:69-76 | Inserts the session under a fresh id, which no session-exercise references yet. |
| Sessions.CreateSession | app/Http/Controllers/TrainingSessionController.php:43-100 | It fails iff StartCheck refuses, leaving no session and no session-exercise behind. Otherwise the name is the training's or the given one. A blank session has no exercises. A templated one gets the clones in order, as many as the template has links. |
| Sessions.ShowSlot | app/Http/Controllers/TrainingSessionController.php:136-160 | An exercise slot of the view shows its row, its exercise, and its sets. The sets are listed each once, in ascending `set_index`, each with `is_completed` from `completed_at`. |
| Sessions.Show | app/Http/Controllers/TrainingSessionController.php:105-165 | 404 for a missing session and 403 for a non-owner. Otherwise the view has the session and its training reference. Its exercises are listed each once in ascending `order_index`, and `is_completed` and `is_in_progress` (exactly one true) come from the model. |
| Sessions.Start | app/Http/Controllers/TrainingSessionController.php:16-37 | Lists exactly the user's trainings, once each, most recently updated first. Each card carries its name, description, update time and number of links. |
| Sessions.TotalExercisesCount | app/Models/TrainingSession.php:58-60 | `getTotalExercisesCount`: the number of session-exercise rows whose session is this one. CreateSession proves it is 0 for a blank session and the template's link count for a clone, and Show proves it is the length of the nested list. |
| Sessions.SetsUnderOneMore | app/Models/TrainingSession.php:65-70 | Adding one session-exercise to a group adds exactly its sets to the count. |
| Sessions.TotalSetsCount | app/Models/TrainingSession.php:65-70 | The sum of the per-exercise set counts is the number of sets under the session's exercises. |
| Sessions.CountSetsOf | app/Models/TrainingSession.php:66-69 | Summing the set counts over distinct session-exercises counts each of their sets once. |
| Stats.Joined | app/Http/Controllers/ExerciseStatsController.php:63-67 | The join keeps exactly the sets of this exercise in the user's sessions, and each joined record carries its own session. |
| Stats.Select | app/Http/Controllers/ExerciseStatsController.php:68-70 | A record is selected iff it passes the `whereNotNull` filters and its session started inside the window. Each selected record appears as many times as among the joined records, so counts and averages over it are exact. |
| Stats.Largest | app/Http/Controllers/ExerciseStatsController.php:71 | `MAX`: null iff there is no value. Otherwise it is one of the values and no value exceeds it. |
| Stats.StatsRange | app/Http/Controllers/ExerciseStatsController.php:22-28 | Start of day of the given start date, or of 90 days ago. End of day of the given end date, or of today. |
| Stats.WindowIsWholeDays | app/Http/Controllers/ExerciseStatsController.php:70 | An instant is inside the window iff its calendar day lies between the first and last day. |
| Stats.DefaultWindow | app/Http/Controllers/ExerciseStatsController.php:22-28 | Without dates, the window holds exactly the instants from 90 days before today through today. |
| Stats.SuppliedWindowIsNonEmpty | app/Http/Requests/StatsFilterRequest.php:23 | Dates that pass the filter give a window whose start is not after its end. |
| Stats.Insert | app/Http/Controllers/ExerciseStatsController.php:72-73 | Adding a record keeps the groups strictly increasing by key, and its key is then represented. |
| Stats.Groups | app/Http/Controllers/ExerciseStatsController.php:72-73 | The groups are strictly increasing by key, and each one comes from a selected record. |
| Stats.GroupsRepresent | app/Http/Controllers/ExerciseStatsController.php:72 | Every record's key has a group. |
| Stats.GroupOf | app/Http/Controllers/ExerciseStatsController.php:72 | Finds the group of a record's key. |
| Stats.WeightsOn | app/Http/Controllers/ExerciseStatsController.php:71 | Holds exactly the weights of the records of one day. |
| Stats.Weighed | app/Http/Controllers/ExerciseStatsController.php:68-70 | Exactly the completed, weighted records in the window. |
| Stats.MaxWeightByDate | app/Http/Controllers/ExerciseStatsController.php:62-82 | The days come in strictly ascending order, one entry per day. |
| Stats.DateListed | app/Http/Controllers/ExerciseStatsController.php:71-73 | Every day with a completed, weighted set in the window has an entry. |
| Stats.DayMaxIsLargest | app/Http/Controllers/ExerciseStatsController.php:71 | Each entry's value is the weight of one of that day's sets, and no set of that day weighs more. |
| Stats.OfSession | app/Http/Controllers/ExerciseStatsController.php:103 | Exactly the records of one session. |
| Stats.Lifted | app/Http/Controllers/ExerciseStatsController.php:93-96 | Exactly the completed records with reps and weight, in the window. |
| Stats.VolumePerSession | app/Http/Controllers/ExerciseStatsController.php:87-115 | Rows come in non-decreasing order of date. |
| Stats.SessionListed | app/Http/Controllers/ExerciseStatsController.php:103 | Every session with a qualifying set has a row. |
| Stats.SessionRowMeaning | app/Http/Controllers/ExerciseStatsController.php:97-114 | Each row names a session of the user, with its name and start date. Its total is the sum of reps × weight over that session's qualifying sets. No other row is about the same session. |
| Stats.VolumesAddUp | app/Http/Controllers/ExerciseStatsController.php:217-227 | The per-session volumes add up to `total_volume`. |
| Stats.RoundedQuotient | app/Http/Controllers/ExerciseStatsController.php:131 | `round(x, 0)`: the nearest whole number, with halves rounded away from zero. |
| Stats.RestsIn | app/Http/Controllers/ExerciseStatsController.php:126-127 | Holds exactly the rest times of the sets in the window that have one, completed or not: one entry per selected set, in the same order. |
| Stats.AverageRest | app/Http/Controllers/ExerciseStatsController.php:120-132 | Null iff there are no rests or the average is 0. Otherwise it is the average rounded half away from zero. |
| Stats.Heaviest | app/Http/Controllers/ExerciseStatsController.php:171-173 | `orderByDesc('volume')->first()`: null iff there are no sets. Otherwise it is a set of the largest volume. |
| Stats.MaxVolumeRecord | app/Http/Controllers/ExerciseStatsController.php:163-188 | Over all time: null iff no completed set has both reps and weight. Otherwise its reps and weight come from one such set, its volume is their product, and no such set has a larger volume. |
| Stats.MaxWeightEver | app/Http/Controllers/ExerciseStatsController.php:139-148 | Null iff no completed set has a weight. Otherwise it is one such set's weight, and none is heavier. |
| Stats.MaxRepsEver | app/Http/Controllers/ExerciseStatsController.php:151-160 | The same, for reps. |
| Stats.TotalSessions | app/Http/Controllers/ExerciseStatsController.php:197-204 | `total_sessions` counts distinct sessions that are the user's, completed, in the window, and contain the exercise. The count is at most the number of sessions. |
| Stats.Counted | app/Http/Controllers/ExerciseStatsController.php:197-203 | The sessions `total_sessions` counts: the user's completed sessions in the window with a session-exercise of this exercise. It is a definition. |
| Stats.TotalSets | app/Http/Controllers/ExerciseStatsController.php:207-214 | `total_sets` counts the completed sets in the window, whatever they measured: the length of Select's result, which holds each such set once per joined record. At most the number of joined records. |
| Stats.TotalVolume | app/Http/Controllers/ExerciseStatsController.php:217-233 | `total_volume`: SUM(reps × weight) over completed sets with both measures in the window, 0 when there are none. It is a definition; VolumesAddUp proves it equals the sum of the per-session volumes. |
| Stats.FilterFields | app/Http/Requests/StatsFilterRequest.php:20-25 | The 422 names at least one field iff some rule fails. |
| Stats.DayOfBounds | app/Http/Controllers/ExerciseStatsController.php:48-49 | The dates shown back are the days the window starts and ends on. |
| Stats.ShowStats | app/Http/Controllers/ExerciseStatsController.php:15-57 | 404, then 422, then 403, and success iff none applies. Every part of the page is the function above, over the same joined records and window. The default filter days are today − 90 and today. The volume rows add up to the summary's total. |
| ClientStore.Exercises | resources/js/Composables/useSessionStore.js:10 | The session's exercises, or the empty list when it has none. |
| ClientStore.ErrorText | resources/js/Composables/useSessionStore.js:49 | The error text it shows: the server's message when it is non-empty, otherwise the fallback. The text is never empty when the fallback is not. |
| ClientStore.ExerciseAt | resources/js/Composables/useSessionStore.js:15-17 | The exercise at that index, or null iff the index is out of range. |
| ClientStore.First | resources/js/Composables/useSessionStore.js:33-35 | `findIndex` by id, over the exercises or over one exercise's sets: the first position whose id matches, or none iff no element has it. |
| ClientStore.Find | resources/js/Composables/useSessionStore.js:33-35 | The `findIndex` loop answers First, with −1 for none. It is used on the exercise list and on each set list (lines 68 and 98). |
| ClientStore.ReplaceFirst | resources/js/Composables/useSessionStore.js:67-77 | The `for … break` loop yields exactly Replaced. |
| ClientStore.Appended | resources/js/Composables/useSessionStore.js:39-44 | The set goes to the end of the first matching exercise's list. Every other exercise is unchanged, and nothing changes when none matches. |
| ClientStore.Replaced | resources/js/Composables/useSessionStore.js:67-77 | Only the first exercise holding the set changes, at that set's position. |
| ClientStore.ReplacedAt | resources/js/Composables/useSessionStore.js:67-77 | When exercise k is the first holding the set, the result changes exactly exercise k. |
| ClientStore.ReplacedNowhere | resources/js/Composables/useSessionStore.js:67-77 | When no exercise holds the set, nothing changes. |
| ClientStore.Relisted | resources/js/Composables/useSessionStore.js:98-103 | The matching exercise's whole set list is replaced by the server's list, and every other exercise is unchanged. |
| ClientStore.Stats | resources/js/Composables/useSessionStore.js:132-135 | There are no more exercises with sets than exercises, and no more than sets. |
| ClientStore.SetCount | resources/js/Composables/useSessionStore.js:135 | `totalSets`: the sum of the exercises' set list lengths. It is a definition; CountsBounded, AddCountsOneMore, UpdateKeepsCounts and DeleteRecounts state how it moves. |
| ClientStore.StartedCount | resources/js/Composables/useSessionStore.js:134 | `completedExercises`: the number of exercises with at least one set. It is a definition; CountsBounded and AddCountsOneMore state its bounds and change. |
| ClientStore.CountsBounded | resources/js/Composables/useSessionStore.js:133-135 | The same two bounds, by induction over the list. |
| ClientStore.CountsAfterChange | resources/js/Composables/useSessionStore.js:133-135 | How changing one exercise changes the counts. |
| ClientStore.AddCountsOneMore | resources/js/Composables/useSessionStore.js:40 | Adding a set to an existing exercise raises the set count by one. The exercise becomes "with sets" if it was empty. |
| ClientStore.UpdateKeepsCounts | resources/js/Composables/useSessionStore.js:72 | Updating a set changes no count. |
| ClientStore.DeleteRecounts | resources/js/Composables/useSessionStore.js:102 | Relisting changes the set count by the difference in list lengths. |
| ClientStore.SessionStore.constructor | resources/js/Composables/useSessionStore.js:4-7 | Starts with the given session, not loading, no error. |
| ClientStore.SessionStore.AddSet | resources/js/Composables/useSessionStore.js:20-54 | On an answer the tree becomes Appended and the error is cleared. On a refusal, or when the session has no exercise list (the lookup throws and the same handler runs), the tree is unchanged and the error holds the message or "Failed to add set". Loading ends false either way. |
| ClientStore.SessionStore.UpdateSet | resources/js/Composables/useSessionStore.js:57-87 | On an answer the tree becomes Replaced; on a refusal it is unchanged, with the message or "Failed to update set". Loading ends false. |
| ClientStore.SessionStore.DeleteSet | resources/js/Composables/useSessionStore.js:90-112 | On an answer the tree becomes Relisted; on a refusal it is unchanged, with the message or "Failed to delete set". Loading ends false. |
| ClientStore.SessionStore.RefreshSession | resources/js/Composables/useSessionStore.js:115-129 | On an answer the session is replaced by the fetched one; on a refusal it is unchanged, with the message or "Failed to refresh session". |

## Left out

- HTTP routing, Inertia rendering, redirects, flash messages and JSON envelopes: these are framework plumbing. Each action answers the record ids or rows involved, or an `Error`. The `wantsJson` branch of link removal only chooses the response format.
- `SessionSetApiController::getSession`: only its owner check would be modelled. It loads an `exercises` relation that the session model does not define.
- The `rest_seconds_actual` branch of the API update: it is unreachable, because the update rules have no rest rule and `validated()` drops the key. `Requests.UpdateNeverCarriesRest` proves this.
- Stats.MaxWeightEver: models only the maximum value. The `reps` beside `MAX()` comes from an engine-chosen row. With no matching set, an aggregate query still returns a row of nulls, which the source reports as a record with weight 0 and null reps. The model reports null instead.
- Stats.MaxRepsEver: models only the maximum value, for the same reason. With no matching set the source reports reps 0; the model reports null.
- Stats.AverageRest: rounds the exact average. An engine that first rounds `AVG` to a few decimals could differ by one next to a half. Reading an average of exactly 0 as no value follows PHP truthiness on the engine's result.
- Tie orders the engine chooses are not fixed. This covers volume rows of one date, the max-volume record among sets of equal volume, and links or slots with equal `order_index`. The model allows any order of equal keys.
- Strings that hold numbers (for example `"62.5"` for weight) and numbers with more than two decimals: the request values are integers, hundredth decimals, text or null. The `TrimStrings` middleware is not modelled, except that `required` refuses blank text.
- The stats date parameters are abstracted as absent, null, a date with its day and time of day, or any other string. Such a string carries the timestamp Carbon's parser still reads from it, if any. Which strings `date` and Carbon accept is not modelled. A parameter sent as an array is not modelled. The application timezone is taken to be UTC.
- Models.DurationMinutes: assumes Carbon 3, whose `diffInMinutes` is signed. Under Carbon 2 it is an absolute value, so a completion before the start would give a positive duration.
- Requests.ExerciseNameTaken and Requests.TrainingNameTaken: names are compared exactly. Under a case-insensitive collation, such as MySQL's default, `unique` also refuses a name that differs only in letter case.
- The custom validation messages are not modelled, except the date filter's messages and the client store's fallback texts.
- One id counter serves every table: each table's auto-increment is not separate. Nothing depends on ids of different tables differing.
- Link and training timestamps beyond a training's `updated_at` are not modelled.
- Laravel's `each()` pages through the rows 1000 at a time. The delete loop is modelled as one pass over all later siblings in `set_index` order, so the paging is not modelled.
- `ExerciseController`, `TrainingController`, the demo seeder (with its 0-based set numbers), the migrations beyond column types and defaults, and the relation-only model files contain no behaviour beyond these tables, so they are not modelled.
- The client store's network calls, the asynchronous timing, the transient `loading = true`, `console.log`, the rethrown error, and `elapsedMinutes` (it reads the wall clock) are not modelled. The server's answer is a parameter: either the data or a refusal with an optional message.
- Floating-point casts and `round(…, 2)` are not modelled: with integer hundredths they do not change the value.
- Concurrency and transaction isolation are not modelled: each request is one atomic step.
- `SessionStoreRequest.php` is not part of this model. The session form body is taken as already validated, except that a blank session's body may lack `name`.
