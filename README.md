# ioBroker.admin adapter core, modelled in Dafny

This project models the logic of the admin adapter's `main.js` that runs in
the adapter itself rather than in its web front end:

- **Ownership rewriting.** When access is limited to a default user,
  `applyRights` makes that user the owner of two groups of objects. The
  first is the instance objects of the allowed adapters. The second is every
  object in the namespaces behind the allowed tabs: `alias`, `javascript`,
  `fullcalendar` and `scenes`. `applyRightsToObjects` scans a namespace by
  key range and queues the rows it finds. `processTasks` works through the
  queue one object at a time and rewrites each owner that differs from the
  default user.
- **Update report.** `writeUpdateInfo` compares the active repository's
  cached catalog with the installed versions (`upToDate`, semantic-version
  precedence). It then rewrites the `info.updatesNumber`,
  `info.updatesList`, `info.newUpdates`, `info.updatesJson` and
  `info.lastUpdateCheck` states.
- **Start-up normalisation in `main`.** The default user becomes a
  `system.user.` id. The `autoUpdate` interval goes through JavaScript's
  `parseInt(…, 10) || 0`. Rights are applied and the refresh cycle is started
  only under the conditions `main` checks.
- **Repository refresh (`updateRegister`).** The cached repository is
  fresh while the clock is below its time stamp plus the interval. Otherwise,
  or when forced, the host is asked for the repository. The next check is
  armed on a timer, and the previous timer is cleared first.

Modules:

- `Wrappers`: `Option`.
- `Strings`: prefixes, code-point string order, `indexOf`, `join`.
- `SemVer`: version precedence.
- `Settings`: `main`'s normalisation and `parseInt`.
- `Tasks`: the ownership rewrite and the task queue, as class `TaskQueue`.
- `Rights`: `applyRights` and `applyRightsToObjects` over a `TaskQueue`.
- `UpdateReport`: `writeUpdateInfo`, with the `info.*` states as class
  `UpdateInfo`.
- `Scheduler`: `updateRegister`, with the timer state as class
  `RepoScheduler`.

The object store, the host, the clock and the installed-package inventory
are inputs:

- a scan function for `getObjectView`
- a lookup function for `getForeignObject`
- a function for whether a `setForeignObject` succeeded
- the host's reply
- the current time

Each callback runs to completion before the next one starts, in the order
the code issues them.

## Model

| member | source | states |
|---|---|---|
| Tasks.WithOwner | main.js:301-302 | The rewritten object differs from the original only in its acl owner, which becomes the default user; the other acl entries, id, type and body are kept. |
| Tasks.HandleAsWritten | main.js:301-312 | What the code does with one queued object: it throws a TypeError exactly when the object has no acl, skips it exactly when the default user already owns it, and otherwise writes the object back under its own id with only its acl owner replaced by the default user. |
| Tasks.Handle | main.js:301-312 | The corrected handling: it never fails; it skips exactly the objects the default user already owns; a rewrite keeps the id and everything but the acl and makes the default user the owner; an object without an acl is written with an acl owned by the default user and nothing else in it; on objects with an acl it agrees with the code as written. |
| Tasks.Rewrites | main.js:296-314 | Defined as the writes the queue issues for a list of objects handled in order, one corrected `Handle` per object; its properties are the `Rewrites…` lemmas. |
| Tasks.RewritesAppend | main.js:296-314 | The writes issued for two batches taken one after the other are the writes of the first batch followed by those of the second. |
| Tasks.RewritesAreOwnerChanges | main.js:301-306 | With the corrected handling, the writes are exactly the needed owner changes, in both directions. There are never more writes than taken objects, and every write is for a taken object that the default user did not own: an object with an acl is written with only its acl owner replaced, and one without an acl gets an acl owned by the default user. Every taken object the default user does not own is written. |
| Tasks.RewritesIdempotent | main.js:301 | When every queued object already belongs to the default user, nothing is written. |
| Tasks.RewritesSettle | main.js:301-306 | Queuing the written documents again produces no further writes: one pass settles ownership. |
| Tasks.ProcessTasksAsWritten | main.js:296-314 | One call as written: a running or empty queue is left untouched and nothing is called back. Otherwise the flag is set and the head is removed. A completion callback is scheduled exactly when handling the head does not throw, and the write issued is exactly the head's rewrite, if it has one. |
| Tasks.MissingAclStallsQueue | main.js:297-302 | As written, an object without an acl leaves the queue running with no write issued and no completion callback, and every later call is a no-op; the corrected handling rewrites it with an acl owned by the default user. |
| Tasks.TaskQueue.constructor | main.js:322 | A new queue is empty and not running, and has issued nothing. |
| Tasks.TaskQueue.ProcessTasks | main.js:296-314 | With the corrected handling of the head: a running or empty queue is untouched; otherwise the head is taken, the queue is marked running, and the write for the head (if any) is issued; the queue invariant (everything pushed is taken or still queued, and the issued writes are those of the taken objects) is kept. |
| Tasks.TaskQueue.TaskDone | main.js:303-311 | With the corrected handling: the completion callback clears the flag and takes the next object, if there is one, with the same effect as `ProcessTasks`; the invariant is kept. |
| Tasks.TaskQueue.Push | main.js:322-327 | Rows are appended to the queue in row order; nothing else changes. |
| Tasks.TaskQueue.Enqueue | main.js:322-327 | The rows of one non-empty scan are pushed and `processTasks` is called: a running queue only grows, and an idle one starts, taking exactly the head of the grown queue and issuing its write (Tasks.Kicked). |
| Tasks.KickedCompose | main.js:316-331 | Two rounds of pushing rows and calling `processTasks` leave the queue as one round with the rows of both would, so batches of scans add up to one. |
| Tasks.TaskQueue.Drain | main.js:303-311 | With the corrected handling: running the completion callbacks until the queue stops leaves it empty and idle, with all queued objects taken in order and exactly their writes issued. |
| Rights.TargetOfMatchesRule | main.js:349-362 | A tab id maps to a namespace and type list exactly when it starts with one of the four recognised prefixes, and then to that prefix's namespace and types. |
| Rights.TargetOf | main.js:349-362 | Defined as the `startsWith` chain itself; its meaning is stated by Rights.TargetOfMatchesRule. |
| Rights.PrefixesExclusive | main.js:350-359 | No tab id starts with two of the recognised prefixes, so the order of the tests does not matter. |
| Rights.ScanStaysInNamespace | main.js:321 | Every key the scan range `ns.` to `ns.` followed by U+9999 admits starts with `ns.`. |
| Rights.ScanCoversNamespace | main.js:321 | A key `ns.` + rest is in the scan range exactly when rest is empty, starts with a character below U+9999, or is that single character. |
| Rights.UnknownTabsQueueNothing | main.js:349-363 | Tab ids with no recognised prefix queue nothing. |
| Rights.ConfigWrites | main.js:339-347 | There are at most as many direct writes as allowed instance ids. |
| Rights.ConfigWrite | main.js:340-346 | Defined as the write for one allowed instance id: only for an object that exists and has an acl with another owner. Its properties are stated by Rights.ConfigWritesAreOwnerChanges. |
| Rights.Accepted | main.js:365-367 | The count of accepted writes never exceeds the number of writes. |
| Rights.ConfigWritesAreOwnerChanges | main.js:339-347 | Both directions. Every direct write targets `system.adapter.<id>` for an allowed id, and holds the object read there, which had an acl with another owner, with only its owner replaced. Every allowed id whose object has an acl with another owner gets exactly that write. |
| Rights.ConfigWritesIdempotent | main.js:341 | When every allowed instance object is missing, has no acl or already belongs to the default user, nothing is written. |
| Rights.ApplyConfigRights | main.js:339-347 | The writes issued are exactly the direct writes of the allowed ids, in order, and the count logged at main.js:365-368 is the number the store accepted, which is at most the number of ids. |
| Rights.ApplyRightsToObjects | main.js:316-331 | The queue grows by exactly the rows of the successful scans of each type, type by type. When no scan returned rows, the queue's contents, flag, taken objects and issued writes are unchanged. When some did and the queue was running, the rows only wait in the queue. When it was idle, exactly the head of the grown queue is taken and its write issued, and the queue is running; the rest wait for completion callbacks (Tasks.Kicked). The queue invariant is kept. |
| Rights.ApplyTabRight | main.js:350-362 | One tab id queues the rows of its target namespace's scans, or nothing, with the queue's new state as in Rights.ApplyRightsToObjects (Tasks.Kicked). |
| Rights.ApplyTabRights | main.js:349-363 | The queue grows by exactly the rows of the allowed tabs' scans, tab by tab. The queue's new state is that of one push of all these rows followed by `processTasks` (Tasks.Kicked): unchanged without rows, otherwise running, with at most the head of the grown queue taken and its write issued. |
| Rights.ApplyRights | main.js:334-370 | The direct writes and accepted count are those of the allowed instances. The queue grows by the rows of the allowed tabs, with its new state as in Rights.ApplyTabRights: unchanged without rows, otherwise running with at most the head taken (Tasks.Kicked). The queue invariant is kept. |
| SemVer.GreaterIsStrictTotalOrder | main.js:222-224 | Version precedence is irreflexive, asymmetric, transitive and total on distinct versions. |
| SemVer.NotUpToDateMeansNewer | main.js:266-267 | A published version that differs from the installed one and is not `upToDate` is exactly one that is strictly greater. |
| SemVer.UpToDate | main.js:222-224 | Defined as `semver.gt(v2, v1)` on version triples; its relation to the update test is SemVer.NotUpToDateMeansNewer. |
| Strings.IndexOf | main.js:277 | The result is -1 exactly when the character is absent; otherwise it is the position of its first occurrence. |
| UpdateReport.CandidateMeansNewer | main.js:265-267 | A catalog entry is reported exactly when the package is installed with a version and the published version is strictly newer. |
| UpdateReport.IsCandidate | main.js:265-267 | Defined as the three-part test of the loop, spelled as in the code; UpdateReport.CandidateMeansNewer states what it means. |
| UpdateReport.DisplayName | main.js:276-278 | A name without a dot is listed as is; otherwise the listed name is what follows the first dot. |
| UpdateReport.CandidatesAreUpdates | main.js:263-275 | A name is a key of `updatesJson` exactly when its catalog entry is an update candidate, and its entry holds the published and installed versions. |
| UpdateReport.CountMatchesKeys | main.js:272-282 | `updatesNumber` (the length of the list) equals the number of `updatesJson` entries. |
| UpdateReport.AnyNewMeansUnseen | main.js:268-271 | `newUpdates` holds exactly when some reported update was absent from the previous report or had another available version there. |
| UpdateReport.RecheckIsNotNew | main.js:259-285 | Recomputing against the report just written reports nothing new. |
| UpdateReport.ComputeReport | main.js:255-281 | The loop builds exactly the specified `updatesJson`, display list and new-update flag, with as many list entries as report entries. |
| UpdateReport.ActiveCatalog | main.js:234-238 | A catalog is found exactly when the repositories object has an entry for the active repository and that entry has a cached `json`, and the catalog found is that `json`. |
| UpdateReport.UpdateInfo.constructor | main.js:118-219 | The states start with the defaults they are created with: 0, an empty list, no new updates, an empty report (`'{}'`) and `'{}'` as the last check, consistently with each other. |
| UpdateReport.UpdateInfo.WriteUpdateInfo | main.js:226-289 | Without `system.config` nothing changes. Without a catalog for the active repository, the report is reset to zero/empty/false/`{}` and stamped. Otherwise the report is the computed one, `newUpdates` is measured against the previous `updatesJson`, and the check time is stamped. `updatesNumber` always equals the number of report entries. |
| UpdateReport.UpdateDetected | main.js:265-279 | A newer published version of an installed package is reported with both versions. |
| UpdateReport.NoDowngrade | main.js:266-267 | A published version older than the installed one is not reported. |
| UpdateReport.BumpIsNew | main.js:269-271 | An update already in the previous report is not new, but a further version bump of it is. |
| UpdateReport.NamespaceStripped | main.js:276-278 | The namespace part of a dotted package name is not displayed. |
| Settings.NormalizeUser | main.js:376-379 | The default user always starts with `system.user.`; a missing or empty one becomes `system.user.admin`; a prefixed one is kept; any other gets the prefix. |
| Settings.NormalizeUserIdempotent | main.js:376-379 | Normalising a normalised user changes nothing. |
| Settings.ParseInt | main.js:403 | `parseInt(s, 10)` is NaN exactly when no digit follows the leading white space and optional sign; its value is given by Settings.ParseIntValue. |
| Settings.ParseIntValue | main.js:403 | For every input made of white space, an optional sign, a run of digits and a rest that does not go on with a digit, `parseInt` gives the value of the digits, negated after a minus sign. |
| Settings.TrimStart | main.js:403 | Only leading white space is removed: the result is a suffix of the input, everything removed is white space, and the result does not start with white space. |
| Settings.ParseIntOfDecimal | main.js:398-403 | A number setting, printed and parsed back, is itself. |
| Settings.ParseAutoUpdate | main.js:398-403 | The interval as written: an unset setting gives 24 hours, a number is kept, and a text gives its `parseInt` value, or 0 for NaN. |
| Settings.AutoUpdateHours | main.js:398-405 | The corrected interval: the parsed value when it is not negative, and 0 (no refresh) otherwise. |
| Settings.NegativeTextIsKept | main.js:403-405 | As written, the text `-5` gives the interval -5, which is truthy and starts the refresh cycle; the corrected interval is 0. |
| Settings.Main | main.js:376-405 | The result's user is the normalised configured user (prefixed), and its interval is the corrected one (Settings.AutoUpdateHours). Rights are applied exactly when apply-rights and access-limit are on, authentication is off and the user is not `system.user.admin`. The refresh cycle starts exactly when that interval is positive, and never for a negative reading, which the code as written starts it for (see Findings). An unset interval starts it with 24 hours. |
| Scheduler.FetchDelay | main.js:490 | The delay requested from `setTimeout` after a fetch is more than an hour for a positive interval, and at most 1 ms for one that is not positive. The host honours it only up to 2147483647 ms (Scheduler.HostDelay; see Scheduler.LongIntervalBusyLoops). |
| Scheduler.FreshDelay | main.js:494 | When the cache is fresh, the requested delay is at least 2 ms and ends one millisecond after the freshness window. The host honours it only up to 2147483647 ms (Scheduler.HostDelay; see Scheduler.LongIntervalBusyLoops). |
| Scheduler.HostDelay | main.js:490-497 | How long the host's timers wait for a requested delay: the delay itself when it lies in 1 to 2147483647 ms, and 1 ms otherwise. |
| Scheduler.CappedDelay | main.js:490-497 | The corrected delay to arm: never longer than wanted and never above 2147483647 ms, equal to the wanted delay when that fits, and always honoured by the host when positive. |
| Scheduler.StalenessBoundary | main.js:462-469 | A cached repository is fresh one millisecond before its stamp plus the interval, and stale from then on. |
| Scheduler.IsFresh | main.js:462-469 | Defined as the freshness test of the code: no read error, the repositories object present, the active repository listed in it, and the clock below its stamp plus the interval. Its boundary is Scheduler.StalenessBoundary. |
| Scheduler.FreshTimerFiresWhenStale | main.js:462-497 | With the capped delay, the host honours the timer armed on a fresh cache. When the window ends within the longest honoured delay, the timer fires when the cache has just become stale. Otherwise it fires after the longest honoured delay, with the cache still fresh unless the window ends exactly then. |
| Scheduler.FetchTimerFiresWhenStale | main.js:462-490 | With the capped delay, the host honours the timer armed after a fetch. When the interval fits the host's timers, it fires when a catalog stamped at or before the fetch is stale. |
| Scheduler.NegativeIntervalRefetchesAtOnce | main.js:403-405 | As written, the text `-5` is kept as the interval -5, which is non-zero, so the cycle starts. A catalog stamped at or before the clock is never fresh with it (main.js:467), and the delay armed after a fetch is below 1 ms (main.js:490), which the host runs after 1 ms. With the corrected interval, `main` starts no cycle. |
| Scheduler.LongIntervalBusyLoops | main.js:490-497 | As written, with an interval of 597 hours or more, the fetch delay is not honoured and fires after 1 ms. The cache is then fresh, and while more than 2147483647 ms of the window remain, every fresh delay is likewise run after 1 ms. The capped delay waits 2147483647 ms in both cases. |
| Scheduler.RepoScheduler.constructor | main.js:405 | Before the first check, no timer is armed, nothing has been requested and no one has been notified. |
| Scheduler.RepoScheduler.Arm | main.js:488-497 | The previous timer is cleared before the new one is armed, so exactly one timer is pending afterwards. |
| Scheduler.RepoScheduler.UpdateRegister | main.js:450-502 | With capped delays: without `system.config` nothing happens. The host is asked exactly when the cache is not fresh or the check is forced, and a successful reply notifies the clients. With a positive interval, the one pending timer is the capped fetch delay or the capped fresh delay; with interval 0 the timers are untouched. |
| Scheduler.RepoScheduler.Tick | main.js:490-497 | The firing timer is dropped and an unforced check runs. It fetches exactly when the cache is stale, appends the request and counts the notification exactly then. With a positive interval, the new pending timer is the capped fetch or fresh delay under a new handle. Otherwise no timer remains pending. |
| Scheduler.AtMostOneTimer | main.js:488-497 | At most one refresh timer is ever armed, and it is the one `timerRepo` holds. |

## Left out

- Web server, socket and certificate loading (`initSocket` at main.js:291-294; the `Web` server and `getCertificates` at main.js:381-391): these are network I/O outside this core.
- `getData` (main.js:408-447), `createUpdateInfo` (main.js:118-219) and the object cache they fill: `writeUpdateInfo` takes the cached `system.config` and `system.repositories` contents as inputs instead.
- Logging and `lastUpdateCheck`'s format (the local-time ISO string of main.js:244-245 and 286-287): the time stamp is an input string.
- Semantic versioning: versions are numeric `major.minor.patch` triples. Pre-release and build tags and malformed versions (on which `semver.gt` throws) are not modelled. An absent or empty version is `None` and is skipped before any comparison, as at main.js:265.
- JSON: `info.updatesJson` is held as a map. `JSON.stringify`/`JSON.parse` and the key order they use are not modelled.
- The completion callback of `applyRightsToObjects` for a type list (main.js:318-319): `applyRights` passes no callback.
- Concurrency: store and host callbacks are taken to run in the order they are issued. Interleavings of several scans with the task queue, and a host that never replies (leaving no timer armed), are not modelled.
- Settings.ParseInt: numbers beyond `Number`'s precision are not rounded; the value is the exact integer of the digits.
- Settings.ParseAutoUpdate: a number setting is an integer printed in plain decimal; fractional and exponent forms of `String(n)` are not modelled.
- UpdateReport.ComputeReport: catalog entries are in `for…in` order as given. JavaScript's reordering of integer-like keys is not modelled.
- Strings.LexLe: compares code points, where JavaScript and the object store compare UTF-16 code units. The orders agree within the Basic Multilingual Plane, which holds the U+9999 scan bound. They differ only when a character above U+FFFF meets one in U+E000 to U+FFFF.
- Rights.ScanCoversNamespace: states the gap of the key range itself. Keys whose first character after `ns.` is above U+9999, and keys where U+9999 is followed by more characters, are not scanned.
- Scheduler.RepoScheduler.UpdateRegister: uses the corrected, non-negative interval of the second finding (`autoUpdate` is a `nat`), so the class cannot hold a negative reading; Scheduler.NegativeIntervalRefetchesAtOnce states the as-written behaviour instead. It also arms the capped delays of the third finding instead of the raw ones. `notifications` counts `repoUpdated` calls as though a socket always exists (`socket && …`, main.js:483). A missing or non-numeric `repos.ts` (which makes the comparison false) is not modelled; `ts` is an integer.

## Findings

| source | as written | input that shows it | evidently intended | confidence | as-written member | corrected member |
|---|---|---|---|---|---|---|
| main.js:301-302 | The test for a missing or foreign owner lets an object without `acl` through to `obj.acl.owner = …`. That throws after `_running` was set, so no completion callback ever clears the flag, and the queue stops for good. | A scanned row whose value has no `acl` property, queued when the queue is idle | Give such an object an acl owned by the default user and continue | not executed | Tasks.MissingAclStallsQueue | Tasks.Handle |
| main.js:403-405 | Parsing `autoUpdate` with `parseInt` and defaulting only NaN to 0 keeps a negative interval. It is truthy, so the refresh cycle starts, every check fetches, and the next timer gets the negative delay `autoUpdate * ONE_HOUR_MS + 1`, which fires at once: an endless refetch loop. | `autoUpdate` set to the text `-5` | Treat a negative interval like 0 (no automatic refresh) | not executed | Scheduler.NegativeIntervalRefetchesAtOnce | Settings.AutoUpdateHours |
| main.js:490-497 | The delays passed to `setTimeout` are not limited to what the host's timers honour. Node.js runs any delay above 2147483647 ms after 1 ms. With 597 hours or more, the timer after a fetch fires at once, finds the cache fresh, and arms the fresh delay. That delay is also too long while more than 2147483647 ms (about 596.5 hours) of the window remain. The result is a busy loop of store reads, 1 ms apart, over the first part of the window: about 3.5 hours for 600 hours. | `autoUpdate` set to 600 | Cap each armed delay at 2147483647 ms, and re-arm when it fires while the cache is still fresh | not executed | Scheduler.LongIntervalBusyLoops | Scheduler.FreshTimerFiresWhenStale |
