# node_temporary — a Dafny model

The Drupal module `node_temporary` lets an editor mark a node as temporary. The
mark is a `node_temporary` content entity with these fields:

- a parent node;
- an expiry datetime (`date_expire`);
- a `delete` flag;
- an owner (`uid`);
- a creation time.

A scanner queues every mark whose expiry has passed. A queue worker then
deletes the node, or unpublishes it, and retires the mark. When a node is
deleted, an entity-delete hook removes its mark. The node edit form offers the
"Temporary" group, validates the chosen date and saves the mark through the
helper service. A settings form stores the global switch and, for each node
type, whether marks are enabled and how many days ahead the default expiry lies.

The model follows the module's own structure, one Dafny module per source file:

| Dafny module | file | models |
|---|---|---|
| `NodeTemporaryEntity` | `entity.dfy` | the mark record, its field defaults, `getUser`, `getCreatedTime`, days and moments |
| `Storage` | `storage.dfy` | the site state the module works on: marks, nodes, users, the request context, the logger channel, the two queues |
| `NodeTemporaryHelper` | `helper.dfy` | lookup, create/update/remove, `isEnabled`, `isOwner`, `getMessage` |
| `EntityHook` | `entity_hook.dfy` | `entityDelete`, and node deletion cascading into it |
| `NodeTemporaryQueue` | `queue.dfy` | `queueExpiredNodes`, the expiry scan |
| `ProcessExpiredNodesQueue` | `process_worker.dfy` | the delete-or-unpublish worker |
| `DeleteExpiredNodesQueue` | `delete_worker.dfy` | the always-delete worker, and draining its queue |
| `FormAlter` | `form_alter.dfy` | `formNodeFormAlter`, `validateDateExpireField`, `nodeTemporaryFormSubmit` |
| `SettingsForm` | `settings_form.dfy` | `buildForm` defaults and `submitForm` normalisation |

The site's state is modelled twice:

- **`Storage.Store`** is a value. Every operation that changes the site has a
  specification function from the old `Store` to the new one, such as
  `HandleSpec`, `ScanSpec` or `ProcessItemSpec`. The lemmas are stated about
  these functions.
- **`Storage.Site`** is an object with the same fields. For each operation, a
  method changes a `Site` in place and proves `site.State() == Spec(old(site.State()), ...)`.

Node deletion runs the entity-delete hook, and that hook calls the helper.
Because of this cascade, both queue workers reach the mark store while they
are deleting a node. The worker then deletes the mark itself, so that mark
may already be gone. Removing an absent key from the map changes nothing, and
the worker contracts include this case.

Other modelling choices:

- **Times.** Datetimes are whole seconds since the Unix epoch (UTC), and dates
  are day numbers. The source stores `'Y-m-d\TH:i:s'` and `'Y-m-d'` strings.
  For those fixed-width formats, string order is time order, so the model
  compares numbers.
- **Mark ids.** Ids are handed out in increasing order. `Store.Valid()` says
  every id in use is below `nextId`.
- **First mark.** The helper takes the first result of `loadByProperties`.
  The model reads that as the matching mark with the least id.
- **Outside inputs.** The clock (`now`), the current user and the request
  time are inputs. The model never reads them from the environment.
- **Lookup failures.** `Store.lookupFailures` is the set of nodes for which
  `loadByProperties` throws. The helper catches that exception and answers
  "no mark", so for those nodes it creates a second mark or fails to remove
  the existing one. No operation changes the set.

Where the code and the module's stated intent differ, the model follows the
code:

- **Scan cutoff.** The scan compares `date_expire` with the current moment to
  the second, using a strict `<`. It does not compare with the start of the
  day.
- **Queues.** The scan feeds only the delete queue. No code shown feeds the
  delete-or-unpublish queue, so that worker is modelled on its own.
- **Orphans.** `parent` is a required field, so a mark always holds a node
  id. The worker's "parent is empty" test therefore coincides with the
  orphan case, where the node no longer exists.

## Model

| member | source | states |
|---|---|---|
| NodeTemporaryEntity.Midnight | src/NodeTemporaryHelper.php:89-90 | `setTime(0, 0, 0)` gives a moment on a whole day boundary, whose day is the given day |
| NodeTemporaryEntity.Create | src/Entity/NodeTemporaryEntity.php:66-117 | a new mark has the given parent and expiry, `delete` FALSE (not empty), the current user as owner and the request time as creation time |
| NodeTemporaryEntity.DayOf | src/Hook/FormAlter.php:140-143 | the 'Y-m-d' day of a moment is the day whose 00:00:00 UTC is at or before it and whose next midnight is after it |
| NodeTemporaryEntity.DayOfMidnight | src/NodeTemporaryHelper.php:89-90 | a moment set to 00:00:00 of a day shows that same day again |
| NodeTemporaryEntity.DayOfNextDay | src/Hook/FormAlter.php:195 | `modify('+1 day')` moves a moment to the next calendar day |
| NodeTemporaryEntity.GetUser | src/Entity/NodeTemporaryEntity.php:139-142 | the owner is present exactly when `uid` is set and refers to an existing user, and is then that user |
| NodeTemporaryEntity.GetCreatedTime | src/Entity/NodeTemporaryEntity.php:150-152 | the created value as an integer, 0 when it is unset |
| Storage.Site.InsertMark | src/NodeTemporaryHelper.php:97-102 | a new mark is saved under the next free id; nothing else changes |
| Storage.Site.UpdateMark | src/NodeTemporaryHelper.php:94 | an existing mark is overwritten; nothing else changes |
| Storage.Site.DeleteMark | src/NodeTemporaryHelper.php:105 | the mark is removed; removing an absent mark changes nothing |
| Storage.Site.RemoveNode | src/Plugin/QueueWorker/DeleteExpiredNodesQueue.php:88 | the node leaves the node storage; nothing else changes |
| Storage.Site.SaveNode | src/Plugin/QueueWorker/ProcessExpiredNodesQueue.php:98-99 | an existing node is saved with new values; nothing else changes |
| Storage.Site.Notice | src/Plugin/QueueWorker/ProcessExpiredNodesQueue.php:92-95 | one notice is appended to the channel; nothing else changes |
| Storage.Site.CreateDeleteQueueItem | src/NodeTemporaryQueue.php:61 | one item is appended to the delete queue; nothing else changes |
| NodeTemporaryHelper.FirstFrom | src/NodeTemporaryHelper.php:120-134 | the result is the least id in the range whose mark has the node as parent, and None means no mark in the range has it |
| NodeTemporaryHelper.GetTemporaryEntity | src/NodeTemporaryHelper.php:118-135 | none when `loadByProperties` throws for the node (the exception is caught); otherwise the node's first mark in id order, and none only when the node has no mark at all |
| NodeTemporaryHelper.LookupUnique | src/NodeTemporaryHelper.php:118-135 | with at most one mark per node and a lookup that does not throw, the lookup finds exactly the node's set of marks |
| NodeTemporaryHelper.IsEnabled | src/NodeTemporaryHelper.php:233-244 | an empty (falsy) bundle gives the global flag; a bundle gives its own `enabled` flag, false without settings for it |
| NodeTemporaryHelper.BundleCheckIgnoresGlobalFlag | src/NodeTemporaryHelper.php:238-243 | changing the global flag never changes a per-bundle answer |
| NodeTemporaryHelper.IsOwner | src/NodeTemporaryHelper.php:201-212 | true exactly when the owner resolves to an existing user whose id is the current user's |
| NodeTemporaryHelper.GetMessage | src/NodeTemporaryHelper.php:169-192 | no message exactly without a mark; the owner variant exactly when `isOwner`; the other-user variant names the mark's owner, a user other than the current one; it fails exactly when the owner does not resolve; both variants carry the mark's expiry |
| NodeTemporaryHelper.GetMessageFailsForMissingOwner | src/NodeTemporaryHelper.php:181-185 | a mark owned by a deleted account makes `getMessage` fail |
| NodeTemporaryHelper.GetMessageGuarded | src/NodeTemporaryHelper.php:169-192 | never fails; no message exactly without a mark; agrees with `getMessage` wherever that succeeds |
| NodeTemporaryHelper.HandleSpec | src/NodeTemporaryHelper.php:84-107 | only the mark store changes; selected with a date and no mark: one new mark for the node, expiring at 00:00 UTC of the date, `delete` FALSE, owned by the current user, created at the request time, with other marks unchanged; with a mark: only its `date_expire` changes; otherwise the first mark goes, or nothing changes; a mark is created only when the node had none or its lookup threw; at most one mark per node is preserved whenever the lookup does not throw |
| NodeTemporaryHelper.HandleLeavesOneOrNone | src/NodeTemporaryHelper.php:85-107 | when no node had two marks and the lookup does not throw, afterwards the node has exactly one mark if it was selected with a date, otherwise none |
| NodeTemporaryHelper.OwnerSeesOwnSchedule | src/NodeTemporaryHelper.php:169-179 | when the node has no mark yet, no node has two, the lookup does not throw and the current user exists, scheduling the node for a day makes `getMessage` the owner variant with 00:00 UTC of that day |
| NodeTemporaryHelper.RemoveIsIdempotent | src/NodeTemporaryHelper.php:104-106 | when no node has two marks, removing a node's mark twice is the same as removing it once (a throwing lookup removes nothing either time) |
| NodeTemporaryHelper.FailedLookupBreaksUniqueness | src/NodeTemporaryHelper.php:85-127 | when the lookup throws for a node that has a mark, scheduling it creates a second mark for the node, so at most one mark per node no longer holds, and removing changes nothing |
| NodeTemporaryHelper.HandleTemporaryEntity | src/NodeTemporaryHelper.php:84-107 | changes the site exactly as `HandleSpec` says |
| EntityHook.EntityDeleteSpec | src/Hook/Entity.php:24-28 | a non-node entity changes nothing; a node loses its first mark (nothing changes when it has none or its lookup throws); marks of other nodes are untouched; only marks change |
| EntityHook.NodeEntityDeleteRemovesItsMark | src/Hook/Entity.php:26 | at most one mark per node is preserved; when that held before and the lookup does not throw, the deleted node keeps no mark and exactly its marks go |
| EntityHook.NodeDeleteSpec | src/Hook/Entity.php:23-28 | node deletion removes the node, then only marks of that node, leaving the other marks unchanged and keeping at most one mark per node; with that invariant and a lookup that does not throw, exactly the node's marks go; a throwing lookup leaves all marks |
| EntityHook.EntityDelete | src/Hook/Entity.php:24-28 | changes the site exactly as `EntityDeleteSpec` says |
| EntityHook.NodeDelete | src/Hook/Entity.php:23-28 | changes the site exactly as `NodeDeleteSpec` says |
| NodeTemporaryQueue.ExpiredFrom | src/NodeTemporaryQueue.php:53-56 | the ids in the range of exactly the marks expiring strictly before `now`, in increasing order |
| NodeTemporaryQueue.ExpiredMarks | src/NodeTemporaryQueue.php:53-56 | the query returns exactly the marks, of any owner, expiring strictly before `now`, each once |
| NodeTemporaryQueue.ScanSpec | src/NodeTemporaryQueue.php:47-64 | only the delete queue changes; the old items stay in front; the items added are exactly the expired marks, each once; with none expired nothing changes |
| NodeTemporaryQueue.BoundaryNotQueued | src/NodeTemporaryQueue.php:54 | a mark expiring exactly at `now`, or later, is not queued |
| NodeTemporaryQueue.ScanAppendsExpired | src/NodeTemporaryQueue.php:53-62 | the scan's new delete queue is the old one followed by the query result |
| NodeTemporaryQueue.CreateDeleteQueueItems | src/NodeTemporaryQueue.php:60-62 | the `foreach` appends one delete-queue item per id, in order, and changes nothing else |
| NodeTemporaryQueue.QueueExpiredNodes | src/NodeTemporaryQueue.php:47-64 | the `foreach` over the query result changes the site exactly as `ScanSpec` says |
| ProcessExpiredNodesQueue.ProcessItemSpec | src/Plugin/QueueWorker/ProcessExpiredNodesQueue.php:77-109 | a missing mark changes nothing; an orphan only loses its mark; a non-empty `delete` deletes the node and logs "deleted"; an empty one unpublishes the node, changing nothing else about it, and logs "unpublished"; the mark is gone afterwards; other marks are unchanged or went with the deleted node; only marks, nodes and log change |
| ProcessExpiredNodesQueue.ProcessItemIdempotent | src/Plugin/QueueWorker/ProcessExpiredNodesQueue.php:79-83 | a redelivered item changes nothing |
| ProcessExpiredNodesQueue.ProcessDeletesNodeOfHelperMark | src/Plugin/QueueWorker/ProcessExpiredNodesQueue.php:89-96 | a mark the helper created has `delete` FALSE, which is non-empty, so its node is deleted, never unpublished |
| ProcessExpiredNodesQueue.ProcessItem | src/Plugin/QueueWorker/ProcessExpiredNodesQueue.php:77-109 | changes the site exactly as `ProcessItemSpec` says |
| DeleteExpiredNodesQueue.DeleteItemSpec | src/Plugin/QueueWorker/DeleteExpiredNodesQueue.php:77-97 | a missing mark changes nothing; otherwise the parent is gone afterwards whatever `delete` says, with one "deleted" notice when it existed and none for an orphan; the mark is gone; other marks are unchanged or went with the node; only marks, nodes and log change |
| DeleteExpiredNodesQueue.DeleteItemIdempotent | src/Plugin/QueueWorker/DeleteExpiredNodesQueue.php:79-83 | a redelivered item changes nothing |
| DeleteExpiredNodesQueue.DrainDeleteQueue | src/Plugin/QueueWorker/DeleteExpiredNodesQueue.php:77-97 | processing the queued items one by one leaves the queue empty |
| DeleteExpiredNodesQueue.DrainRemovesQueuedMarks | src/Plugin/QueueWorker/DeleteExpiredNodesQueue.php:77-97 | after draining, no queued mark remains, and the remaining marks are old ones, unchanged |
| DeleteExpiredNodesQueue.DeleteStepParents | src/Plugin/QueueWorker/DeleteExpiredNodesQueue.php:84-96 | processing the head item and then deleting the parents the rest of the queue names deletes exactly the parents the whole queue names |
| DeleteExpiredNodesQueue.DrainDeletesQueuedParents | src/Plugin/QueueWorker/DeleteExpiredNodesQueue.php:77-97 | after draining, the nodes are exactly the old nodes minus the parents of the queued marks that existed |
| DeleteExpiredNodesQueue.DrainRetiresQueuedMarks | src/Plugin/QueueWorker/DeleteExpiredNodesQueue.php:77-97 | after draining, no queued mark remains; the remaining marks are old ones, unchanged; the nodes are exactly the old nodes minus the parents of the queued marks that existed |
| DeleteExpiredNodesQueue.ScanThenDrainRetiresExpired | src/NodeTemporaryQueue.php:53-61 | a scan followed by a drain leaves no mark that had expired at the scan, and none of their nodes |
| DeleteExpiredNodesQueue.DeleteItem | src/Plugin/QueueWorker/DeleteExpiredNodesQueue.php:77-97 | changes the site exactly as `DeleteItemSpec` says |
| FormAlter.ValidateDateExpireField | src/Hook/FormAlter.php:188-203 | unchecked select: no error; checked with no date: the "required" error; checked with a date: an error exactly when the date is at most today plus one day; `entity_validated` always set |
| FormAlter.TomorrowIsRejected | src/Hook/FormAlter.php:195-197 | tomorrow's date is refused |
| FormAlter.ValidatedDateOutlivesNextDay | src/Hook/FormAlter.php:195-197 | a date that passes validation is not picked by a scan in the next 24 hours |
| FormAlter.DefaultDate | src/Hook/FormAlter.php:138-148 | an existing mark shows the day of its expiry; otherwise today at 00:00 UTC plus `expire_days` days |
| FormAlter.DefaultDateValidIff | src/Hook/FormAlter.php:138-143 | for an unmarked node the proposed date passes validation exactly when `expire_days` is at least 2 |
| FormAlter.WithHandlers | src/Hook/FormAlter.php:178-181 | a submit action other than preview gets the validator and the submitter appended at the end of its lists; any other action is unchanged |
| FormAlter.AllWithHandlers | src/Hook/FormAlter.php:177-182 | the loop body is applied to every action, preserving their number and order |
| FormAlter.AttachHandlers | src/Hook/FormAlter.php:177-182 | the `foreach` over the actions yields `AllWithHandlers` |
| FormAlter.TakesHandlers | src/Hook/FormAlter.php:178 | an action takes the handlers exactly when it is a submit button and not preview; preview and untyped actions never do |
| FormAlter.GatesOpen | src/Hook/FormAlter.php:66-87 | once the early returns pass, the form is an entity form with `advanced`, the user has access, the service is enabled and a named bundle has its own enabled settings; a failing entity-form, `advanced`, service or access test closes them |
| FormAlter.FormTemporary | src/Hook/FormAlter.php:90 | a saved node's lookup is the helper's; an unsaved node has no mark |
| FormAlter.NodeFormAlterSpec | src/Hook/FormAlter.php:65-183 | the form is unchanged exactly when a gate fails (not an entity form, no `advanced`, service disabled, no access permission, bundle disabled); the hook fails exactly when the gates pass and the node's mark has an owner that no longer exists; otherwise the group is open and the select default is checked exactly for a marked node; delete defaults to the mark's flag being TRUE; the date defaults to `DefaultDate`; the fields are disabled with the form; the settings note is shown to administrators; the description is the schedule message or the invitation with `expire_days`; the actions get their handlers |
| FormAlter.FormNodeFormAlter | src/Hook/FormAlter.php:65-183 | builds exactly what `NodeFormAlterSpec` describes, failure included |
| FormAlter.DeleteCheckboxAsDate | src/Hook/FormAlter.php:212 | an unchecked delete box reaches the helper as a falsy date; a checked one as whatever DateTime reads from "1" |
| FormAlter.SubmitSpec | src/Hook/FormAlter.php:208-215 | only marks change; the submit is `handleTemporaryEntity` with the delete box as its date, and nothing at all when DateTime throws |
| FormAlter.SubmitIgnoresDateExpire | src/Hook/FormAlter.php:213 | the submitted expiration date has no effect |
| FormAlter.ScheduleWithoutDeleteIsDropped | src/Hook/FormAlter.php:209-214 | when no node has two marks and the lookup does not throw, selecting a valid date with delete unchecked leaves the node with no mark |
| FormAlter.SubmitIntendedSpec | src/Hook/FormAlter.php:209-214 | with the date forwarded, only marks change, and at most one mark per node is preserved when the lookup does not throw |
| FormAlter.IntendedSubmitSchedules | src/Hook/FormAlter.php:209-214 | with the date forwarded, no node with two marks and a lookup that does not throw, a validated submission leaves exactly one mark, found by the lookup, expiring at 00:00 UTC of the chosen day, which the form shows again as its default |
| FormAlter.NodeTemporaryFormSubmit | src/Hook/FormAlter.php:208-215 | changes the site exactly as `SubmitSpec` says |
| FormAlter.NodeTemporaryFormSubmitIntended | src/Hook/FormAlter.php:208-215 | changes the site exactly as `SubmitIntendedSpec` says |
| SettingsForm.NormaliseExpireDays | src/Form/SettingsForm.php:151-153 | a positive value is kept, anything else becomes 7, so the result is at least 1 |
| SettingsForm.OneDayIsStored | src/Form/SettingsForm.php:151-153 | the handler keeps a submitted 1 as 1; the field's minimum of 2 is enforced only by the number element |
| SettingsForm.NormaliseBundle | src/Form/SettingsForm.php:149-158 | `enabled` is the submitted value or 0; `expire_days` is normalised |
| SettingsForm.SettingsFromSubmission | src/Form/SettingsForm.php:140-165 | the global flag is saved as 1 or 0; exactly one entry per existing node type, so removed types are dropped; each entry is its normalised submission |
| SettingsForm.SubmitForm | src/Form/SettingsForm.php:140-168 | the `foreach` over the node types saves exactly `SettingsFromSubmission` |
| SettingsForm.GlobalEnabledAfterSubmit | src/Form/SettingsForm.php:163 | after a submit, `isEnabled()` is the global checkbox |
| SettingsForm.BundleEnabledAfterSubmit | src/Form/SettingsForm.php:155-164 | after a submit, `isEnabled(bundle)` holds exactly when the type still exists and its checkbox was submitted non-zero |
| SettingsForm.BuildFormDefaults | src/Form/SettingsForm.php:97-107 | a type's saved settings, or `enabled` 0 and `expire_days` 7 when none are saved |
| SettingsForm.ResubmitDefaultsIsIdempotent | src/Form/SettingsForm.php:105-107 | submitting the settings form as `buildForm` fills it reproduces the saved configuration |
| SettingsForm.StoredExpireDaysDefaultPasses | src/Form/SettingsForm.php:151-153 | of the values the submit can store, only 1 makes the node form propose a date its own validation refuses |

## Left out

- `setMessage` and `formAlter`: they only pass `getMessage` to the messenger and read the request method. The message itself is modelled in `GetMessage`.
- `getFormattedExpire`, `getTimestampExpire`: these convert time zones through DrupalDateTime and the user's time zone, a library not modelled here. Messages carry the raw expiry instead.
- Message text: translated strings, `Markup`, `strip_tags` (the `$clean` flag) and the rendered settings link are not modelled. A message is its variant and data; the settings link is a flag saying whether it is shown.
- Logger channel: a notice is just (kind, node id, title). Severity and placeholders are not modelled.
- Storage exceptions beyond the lookup: only `loadByProperties` in `getTemporaryEntity` can throw, for the nodes in `lookupFailures`. Every other storage call (save, delete, the scan query, queue creation) is assumed to succeed.
- NodeTemporaryHelper.GetTemporaryEntity: assumes `loadByProperties` and the scan query return ids in increasing order. The code imposes no order.
- FormAlter.DeleteCheckboxAsDate: leaves what PHP's DateTime makes of the string "1" as the input `dayReadFromOne`. DateTime parsing is not modelled.
- Form values come in already parsed. A date element is the day it names, or absent; a checkbox is a bool; PHP's coercion of them to `bool`/`string` parameters is only followed as far as truthiness goes.
- NodeTemporaryHelper.IsOwner: compares user ids as numbers. PHP's `===` would also be false for an integer id against a string id, and the model does not capture that.
- SettingsForm.NormaliseExpireDays: takes the submitted value as a whole number. The `(int)` cast of a fractional or non-numeric string is not modelled.
- FormAlter.NodeFormAlterSpec: requires a non-empty bundle name, as Drupal node type machine names always are. The case where `$node->bundle()` is falsy and `isEnabled` answers with the global flag is not modelled for the form.
- FormAlter.DefaultDate: models `modify('+N days')` as adding N days. A negative or non-integer setting is not read through PHP's relative-date syntax.
- Queues: a queue is a sequence of mark ids. Persistence, leasing, retries, cron time budgets and Drupal's queue runner are not modelled, except `DrainDeleteQueue` as a plain head-first loop.
- Feeding the delete-or-unpublish queue: no code shown creates its items, so its worker is modelled on arbitrary mark ids.
- The cron hook: its body holds only comments, so the scan is an entry point taking `now`.
- The node form's other render properties (`#states`, `#attached`, `#weight`, `#attributes`, titles) and the JavaScript summary are not modelled.
- Presentation files: `NodeTemporaryListBuilder`, the Views and Theme hooks, `temporary.js`. They render data and add no state change.
- The `uuid`, `langcode` and `changed` fields, and dependency injection.
- The settings form assumes the node entity type has bundles (`getBundleEntityType()` is set). The ids of the existing node types are an input.
- Concurrency between requests and cron runs is not modelled.

## Findings

| source | as written | input that shows it | evidently intended | confidence | as-written member | corrected member |
|---|---|---|---|---|---|---|
| src/Hook/FormAlter.php:209-214 | the submit handler passes (entity, select, delete, date_expire) to `handleTemporaryEntity(node, selected, date)`, so the delete checkbox becomes `$date` and `date_expire` is dropped | select checked, a valid future date, delete unchecked: `$date` is "0", which is falsy, so the helper takes the remove branch and the node ends with no mark | pass `date_expire` as the helper's date | high; not executed | FormAlter.SubmitSpec, FormAlter.ScheduleWithoutDeleteIsDropped | FormAlter.SubmitIntendedSpec, FormAlter.IntendedSubmitSchedules |
| src/NodeTemporaryHelper.php:181-185 | the other-user branch calls `getUser()->getAccountName()` without testing `getUser()` for NULL | a mark with `uid` 5 on node 7, where user 5 no longer exists: `isOwner` is false, `getUser()` is NULL and the call fails | fall back to a message without an account name when the owner is gone, as `isOwner` already allows for | medium; not executed | NodeTemporaryHelper.GetMessage, NodeTemporaryHelper.GetMessageFailsForMissingOwner | NodeTemporaryHelper.GetMessageGuarded |
