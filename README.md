# Revision history and breakpoint rows of the Cloud9 IDE client

This project models two client plugins of the Cloud9 IDE in Dafny.

The **revisions plugin** (`plugins-client/ext.revisions/revisions.js`) keeps the revision history of every open file:

- a per-path revision object, created lazily;
- the compacted view of the history, which groups revisions close in time and keeps every `restoring` revision in a group of its own;
- the save pipeline:
  - a save posts the document to the diff worker;
  - the worker's new revision waits in `revisionQueue` until the server confirms it;
  - revisions saved while offline wait in `offlineQueue` and are replayed on reconnect;
- the bookkeeping for files changed on disk;
- the XML the history list is loaded from.

The **breakpoints plugin** (`plugins-client/ext.debugger/breakpoints.js`) keeps:

- the gutter markers of an editor session, a sparse array indexed by row that a change spanning several rows shifts by `end.row - start.row`: down when that is positive, up when it is negative (Ace's change events have `end.row >= start.row`, removals included, so removals shift the markers down as well; see "## Findings");
- the `<breakpoint>` records of the breakpoint model;
- the script-name index that `$syncTree` uses to give files their debugger script ids.

Every message the revisions plugin sends, to the server (`ide.send`) or to the diff worker (`worker.postMessage`), is appended to one log, `sent: seq<Command>`. Each event handler is a method of the class `Revisions.RevisionsPlugin`. Its fields are the plugin's module state:

- `rawRevisions`, `revisionQueue` and `offlineQueue`;
- `changedPaths`;
- the autosave flags.

A revision object is a datatype value held in the `rawRevisions` map. Updating one means reassigning its map entry.

Files:

| file | module | what |
|---|---|---|
| wrappers.dfy | Wrappers | `Option` |
| strings.dfy | Strings | `indexOf`, `slice`, decimal rendering of numbers and its inverse |
| revision_model.dfy | RevisionModel | revisions, compact records, revision objects, queue entries, the `Command` log entries, `$getRevisionObject` on the map |
| compaction.dfy | Compaction | `generateCompactRevisions`: specification functions, its loops as methods, the partition and record properties |
| history.dfy | History | `getRevision` and the expansion of an id to its compaction group |
| offline.dfy | Offline | chaining and replay of the offline queue |
| revision_xml.dfy | RevisionXml | `getXmlStringFromRevision` and the order `populateModel` lists revisions in |
| revisions.dfy | Revisions | the plugin's event handlers on class `RevisionsPlugin` |
| breakpoints.dfy | Breakpoints | gutter cycle, row shifting, `updateSession`, `toggleBreakpoint`, `setBreakPointEnabled`, `$syncTree` |

Helpers whose code is not part of this model are parameters of the members that use them, constrained by what they are taken to do:

- `Util.keysToSortedArray` is `sortKeys`. `SortsKeys` requires the keys to come back in strictly ascending order. It is also taken to return an empty array for an undefined map (`keysToSortedArray(revObj.allRevisions)` before any history arrived, at revisions.js:957 and 1022), so `RevisionModel.AllOf` and `RevisionXml.ListedInfos` read a missing `allRevisions` as no revisions; a helper built on `Object.keys` would throw a TypeError there instead.
- `Util.compactRevisions` is `split`. `SplitsIntoChunks` requires non-empty consecutive chunks that concatenate back to the input.
- `Util.stripWSFromPath` is `strip`.
- `apf.isTrue` is `isTrue`.

The following are inputs of the handlers rather than state: the clock (`Date.now()`), whether the IDE is online, collaboration-slave status (`isCollab() && !iAmMaster()`; `iAmMaster` returns `true` unconditionally at revisions.js:1013-1016, so in this file that status is never true and the slave branch of `SaveRevision` cannot run as written), the open tabs, the guided-tour flag, question-window visibility and the page tests.

JavaScript semantics are written out where the code depends on them:

- **Truthiness.** A `restoring` or message id of 0 is absent. An empty `nextAction` is absent. An empty-string marker is absent.
- **Splice.** `splice` clamps its start and count to the array.
- **Ace change events.** The change listener is fed Ace's change events as they are taken to be: a range from `start` to `end` with `end.row >= start.row` for removals as well as insertions. Ace's code is not part of this model.
- **`for each`.** `for each (var oldBP in rem)` is SpiderMonkey (Firefox) syntax, which other engines reject when parsing; the model takes its Firefox meaning, a visit of the array's values in index order.
- **Sparse arrays.** Assigning past the end grows the array with holes.
- **Throws.** The TypeErrors the code can throw are reported as a `thrown` result:
  - `$resetEditingUsers` on a path without an object;
  - `stack.usersChanged.indexOf` on an object without a list;
  - `this.paths[…]` in `$syncTree` while `this.paths` is undefined;
  - `patch[0].length` on an empty patch array.
- **Key order.** `for (var rev in revisionQueue)` visits the queue's keys, millisecond timestamps far above 2^32 - 2, in insertion order (only array-index keys below 2^32 - 1 come first in ascending order). `DropQueuedFor` visits them through `sortKeys`; the entries it deletes and keeps do not depend on the visiting order.

## Model

| member | source | states |
|---|---|---|
| Compaction.NewRevObjConsistent | plugins-client/ext.revisions/revisions.js:379-389 | a newly created revision object keeps the compaction invariant: it has no revisions, and regenerating its compact view leaves it unchanged |
| RevisionModel.Created | plugins-client/ext.revisions/revisions.js:379-389 | after `$getRevisionObject(path)` the path has an object, the key set grows by that path only, and every existing object is unchanged |
| RevisionModel.CreatedKeepsRevisions | plugins-client/ext.revisions/revisions.js:379-389 | creating an object never changes any path's revision set |
| Compaction.RepackStep | plugins-client/ext.revisions/revisions.js:1106-1113 | one `repack` step never leaves the accumulator empty |
| Compaction.RepackStepFlatten | plugins-client/ext.revisions/revisions.js:1106-1113 | one `repack` step adds exactly `id` to the end of the flattened groups |
| Compaction.RepackStepAlone | plugins-client/ext.revisions/revisions.js:1106-1113 | a `repack` step keeps every group holding a restoring revision a singleton: an id joins the last group only when that group is empty or neither it nor its first id is restoring |
| Compaction.RepackStepSplit | plugins-client/ext.revisions/revisions.js:1106-1113 | after a `repack` step, two neighbouring groups are still separate only because one of them starts with a restoring revision |
| Compaction.RepackedProperties | plugins-client/ext.revisions/revisions.js:1106-1117 | `chunk.__reduce(repack, [[]])` keeps the chunk's ids in order, makes only non-empty groups for a non-empty chunk, and leaves restoring revisions alone |
| Compaction.RepackedSplitsOnlyAtRestoring | plugins-client/ext.revisions/revisions.js:1106-1117 | within one chunk, neighbouring groups are split only at a restoring revision |
| Compaction.GroupedProperties | plugins-client/ext.revisions/revisions.js:1116-1118 | `finalTS` flattens to the concatenated chunks, and its groups are non-empty with restoring revisions alone |
| Compaction.GroupedIsGrouping | plugins-client/ext.revisions/revisions.js:1115-1120 | `groupedRevisionIds` partitions the sorted timestamps: the groups concatenate to the sorted key list, and every restoring id is a singleton group |
| Compaction.DedupProperties | plugins-client/ext.revisions/revisions.js:1137-1155 | the contributor push loop lists every contributor of the group exactly once, in order of first appearance |
| Compaction.DedupSnoc | plugins-client/ext.revisions/revisions.js:1148-1152 | one more contributor is pushed exactly when it is not in the list yet |
| Compaction.LastsIncrease | plugins-client/ext.revisions/revisions.js:1122-1124 | in a sorted grouping the groups' last ids strictly increase, so no two groups share a record key |
| Compaction.CompactMapAt | plugins-client/ext.revisions/revisions.js:1122-1160 | `compactRevisions` holds, under each group's last id, that group's record, and has no other key |
| Compaction.RepackChunk | plugins-client/ext.revisions/revisions.js:1106-1117 | the reduce over one chunk computes the repacked groups |
| Compaction.PushContributors | plugins-client/ext.revisions/revisions.js:1146-1153 | pushing a revision's contributors into the de-duplicated list gives the de-duplicated list of everything seen so far |
| Compaction.BuildGroupRecord | plugins-client/ext.revisions/revisions.js:1122-1157 | the record of a group: every non-patch field of the last member, `first` = the first member, every member's patch in group order, contributors de-duplicated |
| Compaction.GroupTimestamps | plugins-client/ext.revisions/revisions.js:1116-1118 | the chunk loop fills `finalTS` with every chunk's repacked groups in chunk order |
| Compaction.BuildCompactMap | plugins-client/ext.revisions/revisions.js:1122-1158 | the group loop fills `compactRevisions` with one record per group under its last id |
| Compaction.CompactRevisions | plugins-client/ext.revisions/revisions.js:1115-1160 | on a revision set, the groups partition the sorted timestamps with restoring ids alone, and the compact map holds exactly each group's record under its last id |
| Compaction.Regenerated | plugins-client/ext.revisions/revisions.js:1093-1161 | `generateCompactRevisions` changes only the groups and the compact map; it leaves `allRevisions` as it is, does nothing without revisions, and leaves a consistent object |
| Compaction.GenerateCompactRevisions | plugins-client/ext.revisions/revisions.js:1093-1161 | the regeneration with its loops computes the regenerated object |
| History.IndexIn | plugins-client/ext.revisions/revisions.js:1023 | `tstamps.indexOf(id)` is -1 exactly when the id is absent, and otherwise its first position |
| History.RevisionLookupOf | plugins-client/ext.revisions/revisions.js:1018-1038 | `getRevision(id)` returns nothing for an unknown id; otherwise it returns the id, its position, and a first-patch entry for every timestamp |
| History.LookupPosition | plugins-client/ext.revisions/revisions.js:1018-1038 | with sorted timestamps, the position reported is the number of revisions older than the id, and every revision's first patch element is listed |
| History.PatchesUpToIs | plugins-client/ext.revisions/revisions.js:1033-1035 | after the loop, `patchesByTS` maps every timestamp to the first element of its revision's patch |
| History.LookupRevision | plugins-client/ext.revisions/revisions.js:1022-1037 | the `indexOf` test and the `patchesByTS` loop compute the lookup |
| History.FirstGroupWith | plugins-client/ext.revisions/revisions.js:793-801 | the first group containing the id, or none when no group does |
| History.FindGroupWith | plugins-client/ext.revisions/revisions.js:793-801 | the search loop with its `break` finds that first group |
| History.HistoryGroupIds | plugins-client/ext.revisions/revisions.js:791-810 | the ids a history request carries always include the requested id |
| History.GroupingOrder | plugins-client/ext.revisions/revisions.js:1115-1120 | in a grouping, ids strictly increase along and across groups |
| History.HistoryGroupOfGrouping | plugins-client/ext.revisions/revisions.js:791-810 | in compact view, for an id in a group of more than one member, the request carries exactly that group's members; otherwise it carries the id alone |
| Offline.FirstApplyingOn | plugins-client/ext.revisions/revisions.js:543-550 | the `filter(...)[0]` of `onRevisionSaved` is the first entry whose `applyOn` is the saved timestamp, or none |
| Offline.FindApplyingOn | plugins-client/ext.revisions/revisions.js:543-550 | the search loop finds that entry |
| Offline.ChainedLinks | plugins-client/ext.revisions/revisions.js:558-563 | chaining changes only `applyOn`: the head stays as it is, and every later entry applies on its predecessor's `ts` |
| Offline.ChainEntries | plugins-client/ext.revisions/revisions.js:558-563 | the `forEach` computes the chained queue |
| Offline.ChainedTailReleasesSuccessor | plugins-client/ext.revisions/revisions.js:543-567 | if the chained queue minus its head were kept, the confirmation of entry k would release exactly entry k + 1 |
| Offline.ReplayAsWritten | plugins-client/ext.revisions/revisions.js:553-569 | as written, the replay submits the queue's head as queued and keeps no entry that any later save confirmation could release |
| Offline.Replay | plugins-client/ext.revisions/revisions.js:553-569 | the intended replay submits the original head and keeps every later entry, each chained to its predecessor |
| Offline.SecondOfflineSaveIsLost | plugins-client/ext.revisions/revisions.js:553-569 | with two offline saves, the replay as written leaves nothing for the first confirmation to release; the intended replay releases the second save |
| RevisionXml.RestoringAttr | plugins-client/ext.revisions/revisions.js:973 | `restoring || ""` is empty exactly when nothing is restored, and otherwise parses back to the restored id |
| RevisionXml.ContributorsXml | plugins-client/ext.revisions/revisions.js:982-984 | the contributor list is empty exactly when there are no contributors |
| RevisionXml.ContributorsXmlAppend | plugins-client/ext.revisions/revisions.js:982-984 | the list for concatenated contributors is the concatenation of the two lists |
| RevisionXml.RevisionXmlId | plugins-client/ext.revisions/revisions.js:965-988 | the element begins with its `id` attribute, which parses back to the revision's timestamp and is closed by a quote |
| RevisionXml.ListedInfos | plugins-client/ext.revisions/revisions.js:949-955 | the listed records are the compact records' fields when the view is compact and they exist, and otherwise every revision's fields, under the same timestamps; nothing is listed before the revisions arrive |
| RevisionXml.ReversedDescending | plugins-client/ext.revisions/revisions.js:957-961 | reading ascending timestamps from the end lists each once, in strictly descending order |
| RevisionXml.PopulateModel | plugins-client/ext.revisions/revisions.js:938-963 | nothing is loaded for a non-listable page or without an object; otherwise every listed record appears exactly once, newest first |
| Revisions.SaveGuard | plugins-client/ext.revisions/revisions.js:1283-1299 | `save` quicksaves a tab page when forced exactly if it is not new and not a debug document; forcing skips only the changed/code test |
| Revisions.EditingUsersReset | plugins-client/ext.revisions/revisions.js:1425-1438 | after `$resetEditingUsers` the path has no editing users and other paths keep theirs; an e-mail added to the object's list is read back by `$getEditingUsers` |
| Revisions.SaveContributorsCredit | plugins-client/ext.revisions/revisions.js:1317-1321 | a new revision credits every editing user and nobody else, or the default e-mail alone when nobody is recorded; it has no contributor exactly when nobody edited and no default e-mail is set; the object's own list then holds exactly the credited contributors |
| Revisions.ConfirmedObj | plugins-client/ext.revisions/revisions.js:736-749 | a confirmed revision is stored under its timestamp, creating the revision set when absent, and the object stays consistent |
| Revisions.ReplayedKeepsRevisions | plugins-client/ext.revisions/revisions.js:536-552 | the `revisionSaved` listener never changes a revision set or drops an object |
| Revisions.ReplayedCmds | plugins-client/ext.revisions/revisions.js:542-552 | the listener sends at most one message, and one exactly when an entry applies on the saved timestamp |
| Revisions.HistoryGroup | plugins-client/ext.revisions/revisions.js:785-811 | the request's group has a found lookup for the id exactly when the id is among the current document's revisions |
| Revisions.HistoryGroupOf | plugins-client/ext.revisions/revisions.js:791-810 | a map with a lookup for each of the group's ids and nothing else is the request's group |
| Revisions.LookupInCreated | plugins-client/ext.revisions/revisions.js:1021 | the object `getRevision` creates does not change what it finds |
| Revisions.HistoryRaw | plugins-client/ext.revisions/revisions.js:771-776 | a history reply creates the path's object, replaces its revisions when the reply carries some, leaves it consistent, and touches no other path |
| Revisions.RecoveryRequestsFor | plugins-client/ext.revisions/revisions.js:813-832 | every recovery request is for the path and carries the server's content and the store flag; no tab showing the path means no request |
| Revisions.RecoveryRequestsEvery | plugins-client/ext.revisions/revisions.js:814-831 | each open tab showing the path gets a recovery request carrying its own content, and there are as many requests as such tabs |
| Revisions.ChangedTabsChanged | plugins-client/ext.revisions/revisions.js:866-898 | only paths waiting for a decision are reloaded or kept |
| Revisions.ChangedTabsEvery | plugins-client/ext.revisions/revisions.js:866-898 | every open tab whose path waits for a decision is reloaded or kept, and the number visited equals the number of such tabs |
| Revisions.FinalizedAutoSaveAsWritten | plugins-client/ext.revisions/revisions.js:861 | as written, `finalize` always writes autosave on |
| Revisions.AliasPushedReset | plugins-client/ext.revisions/revisions.js:1318-1366 | the default e-mail pushed into the object's own user list is gone once the users are reset |
| Revisions.RevisionsPlugin.constructor | plugins-client/ext.revisions/revisions.js:141-144 | the offline queue is the stored one, or empty when none was stored or it failed to parse (lines 248-257); autosave follows the loaded setting |
| Revisions.RevisionsPlugin.GetRevisionObject | plugins-client/ext.revisions/revisions.js:379-389 | returns the path's object, creating a new one only when there is none |
| Revisions.RevisionsPlugin.OnSettingsSaved | plugins-client/ext.revisions/revisions.js:146-151 | without settings data nothing changes; otherwise autosave follows the setting |
| Revisions.RevisionsPlugin.OnRemoveFile | plugins-client/ext.revisions/revisions.js:153-161 | one `removeRevision` command is sent for the stripped path |
| Revisions.RevisionsPlugin.OnRename | plugins-client/ext.revisions/revisions.js:164-183 | with both paths given: the old path's object moves to the new path, the old key goes, other paths are unchanged, and one `moveRevision` is sent; otherwise nothing happens |
| Revisions.RevisionsPlugin.DropQueuedFor | plugins-client/ext.revisions/revisions.js:525-530 | exactly the queue entries whose path is the closed one are deleted; the others are unchanged |
| Revisions.RevisionsPlugin.OnCloseFile | plugins-client/ext.revisions/revisions.js:503-534 | the path's object goes, one `closefile` goes to the worker, exactly the path's queued revisions are dropped, and the page is quicksaved when the `save` guard allows |
| Revisions.RevisionsPlugin.ResetEditingUsers | plugins-client/ext.revisions/revisions.js:1433-1438 | the user list becomes empty; reading it back throws exactly when the path has no object |
| Revisions.RevisionsPlugin.AddUserToDocChangeList | plugins-client/ext.revisions/revisions.js:1377-1385 | the e-mail joins the path's list once; without a user, document or object nothing changes; an object without a list throws |
| Revisions.RevisionsPlugin.SaveRevision | plugins-client/ext.revisions/revisions.js:1311-1367 | offline, one entry with the current time is queued; online and not a slave, the full revision set goes only on the first submission, the flag is then set and the users reset; a slave sends nothing |
| Revisions.RevisionsPlugin.PushDefaultUser | plugins-client/ext.revisions/revisions.js:1317-1321 | the contributors are computed, and the default e-mail is pushed into the object's own list when it is that list |
| Revisions.RevisionsPlugin.SubmitToWorker | plugins-client/ext.revisions/revisions.js:1349-1363 | the revision set is attached exactly when the object has not been sent to the worker yet, and the flag is then set |
| Revisions.RevisionsPlugin.ToggleListView | plugins-client/ext.revisions/revisions.js:916-922 | the current object's compact flag flips and its preview cache empties; nothing else changes |
| Revisions.RevisionsPlugin.OnWorkerNewRevision | plugins-client/ext.revisions/revisions.js:637-650 | an empty first patch adds nothing and sends nothing, and an empty patch array throws; otherwise the revision is queued under its `ts` and one `saveRevision` is sent |
| Revisions.RevisionsPlugin.OnWorkerNewRevisionError | plugins-client/ext.revisions/revisions.js:652-657 | the path's object is marked not sent to the worker |
| Revisions.RevisionsPlugin.OnWorkerRecovery | plugins-client/ext.revisions/revisions.js:658-687 | with `storeAsRevision`, one forced `saveRevision` is sent; otherwise the user is asked exactly when the worker asks for a dialog and none is showing |
| Revisions.RevisionsPlugin.GetRevision | plugins-client/ext.revisions/revisions.js:1018-1038 | finds the id exactly when it is one of the current document's revisions |
| Revisions.RevisionsPlugin.CollectGroup | plugins-client/ext.revisions/revisions.js:796-798 | the `forEach` builds a lookup for exactly the group's members |
| Revisions.RevisionsPlugin.PostHistory | plugins-client/ext.revisions/revisions.js:785-811 | one worker request is sent, carrying the group of the id |
| Revisions.RevisionsPlugin.OnRevisionHistory | plugins-client/ext.revisions/revisions.js:771-811 | the reply's revisions replace the object's and the compact view is rebuilt; only with an id and a next action is a worker request for the id's group sent |
| Revisions.RevisionsPlugin.TakeHistory | plugins-client/ext.revisions/revisions.js:771-776 | the reply's revisions are taken in and the compact view is rebuilt |
| Revisions.RevisionsPlugin.OnRevisionSaved | plugins-client/ext.revisions/revisions.js:542-552 | submits the first offline entry that applies on the saved timestamp, if any |
| Revisions.RevisionsPlugin.MakeNewRevision | plugins-client/ext.revisions/revisions.js:536-541 | the entry goes to the worker with its path's revision set |
| Revisions.RevisionsPlugin.OnConfirmSave | plugins-client/ext.revisions/revisions.js:719-769 | a queued revision is marked saved and stored under its timestamp (creating the set when absent), only that queue entry goes, and the entry applying on it is replayed; an unknown timestamp sends exactly one `getRevisionHistory` and changes no revision set or queue |
| Revisions.RevisionsPlugin.ConfirmQueued | plugins-client/ext.revisions/revisions.js:736-749 | the queued revision moves into the revision set, marked saved, and the compact view is rebuilt |
| Revisions.RevisionsPlugin.OnRealFileContents | plugins-client/ext.revisions/revisions.js:813-832 | sends `RecoveryRequests`: by `RecoveryRequestsFor` and `RecoveryRequestsEvery`, exactly one request for each open tab showing the path, in tab order, and nothing else |
| Revisions.RevisionsPlugin.PostRecoveryRequests | plugins-client/ext.revisions/revisions.js:814-831 | the tab loop sends the recovery requests |
| Revisions.RevisionsPlugin.ChainQueue | plugins-client/ext.revisions/revisions.js:558-563 | every entry after the first applies on its predecessor's timestamp |
| Revisions.RevisionsPlugin.OnAfterOnline | plugins-client/ext.revisions/revisions.js:553-569 | as written: on a non-empty queue the queue is chained, only the head is submitted, and the queue is left empty |
| Revisions.RevisionsPlugin.OnAfterOnlineKeepingTail | plugins-client/ext.revisions/revisions.js:553-569 | intended: the tail stays chained, and each confirmation releases the next entry |
| Revisions.RevisionsPlugin.OnExternalChange | plugins-client/ext.revisions/revisions.js:420-441 | autosave is recorded and switched off, the path waits for a decision, and in single-user mode with no question showing the server's content is requested |
| Revisions.RevisionsPlugin.Finalize | plugins-client/ext.revisions/revisions.js:857-861 | as written: the changed paths are cleared and autosave is switched on whatever it was |
| Revisions.RevisionsPlugin.FinalizeRestoring | plugins-client/ext.revisions/revisions.js:857-861 | intended: autosave returns to its recorded value |
| Revisions.RevisionsPlugin.AnswerQuestion | plugins-client/ext.revisions/revisions.js:903-912 | as written: reload returns the changed tabs for reloading; keep asks the server for each changed tab's content to store; then `finalize` clears the changed paths and turns autosave on |
| Revisions.RevisionsPlugin.AnswerQuestionRestoring | plugins-client/ext.revisions/revisions.js:903-912 | intended: the same answers, ending with autosave restored to the value recorded when the external change arrived |
| Revisions.RevisionsPlugin.ExternalChangeAnswered | plugins-client/ext.revisions/revisions.js:857-912 | as written: after an external change and an answer, autosave is on and the changed paths are cleared, even when autosave was off before the change and the recorded value says so |
| Revisions.RevisionsPlugin.ExternalChangeAnsweredRestoring | plugins-client/ext.revisions/revisions.js:857-912 | intended: after an external change and an answer, autosave is what it was before the change |
| Revisions.RevisionsPlugin.VisitChangedTabs | plugins-client/ext.revisions/revisions.js:866-898 | the tab loops of reload and keep visit `ChangedTabs`: by `ChangedTabsChanged` and `ChangedTabsEvery`, every open tab whose path waits for a decision, once each, and no other |
| Strings.IndexOf | plugins-client/ext.debugger/breakpoints.js:209 | `indexOf` is -1 exactly when the pattern does not occur, and otherwise its first occurrence |
| Strings.IndexOfZeroIsPrefix | plugins-client/ext.debugger/breakpoints.js:238 | `indexOf(p) === 0` exactly when `p` is a prefix |
| Strings.SliceFrom | plugins-client/ext.debugger/breakpoints.js:148 | `slice(start)` is the rest of the string after `start`, or empty past the end |
| Strings.IntToStringRoundTrip | plugins-client/ext.debugger/breakpoints.js:216 | the decimal text of a number parses back to that number |
| Breakpoints.SetRow | plugins-client/ext.debugger/breakpoints.js:104 | setting a row changes that row only, growing the array with holes past the end |
| Breakpoints.GutterCycle | plugins-client/ext.debugger/breakpoints.js:96-104 | clicks go from no breakpoint to enabled, to disabled, to none; three clicks on an empty row leave none |
| Breakpoints.SpliceShape | plugins-client/ext.debugger/breakpoints.js:126-131 | `splice` removes the clamped count at the clamped start and puts the items in their place |
| Breakpoints.SpliceUndo | plugins-client/ext.debugger/breakpoints.js:126-131 | splicing the removed elements back in place of the items restores the array |
| Breakpoints.FirstTruthy | plugins-client/ext.debugger/breakpoints.js:133-139 | the first non-empty removed marker, or none when every removed slot is empty |
| Breakpoints.ShiftedSameRow | plugins-client/ext.debugger/breakpoints.js:116-117 | a change within one row moves no marker |
| Breakpoints.ShiftedInsertsRows | plugins-client/ext.debugger/breakpoints.js:119-129 | `len` empty rows appear at the first row, earlier rows keep their markers, and later markers move down by `len` |
| Breakpoints.RemoveRowsShifts | plugins-client/ext.debugger/breakpoints.js:130-139 | up to `n` markers after the first row go, later ones move up, and an empty first row takes the first removed marker |
| Breakpoints.SpliceOutRows | plugins-client/ext.debugger/breakpoints.js:130-139 | the removal branch computes that shift |
| Breakpoints.FindFirstTruthy | plugins-client/ext.debugger/breakpoints.js:134-138 | the `for each … break` finds the first non-empty removed marker |
| Breakpoints.Session.GutterClick | plugins-client/ext.debugger/breakpoints.js:87-104 | outside a focused editor's marker region nothing changes; otherwise only the clicked row moves to its next state |
| Breakpoints.Session.OnChange | plugins-client/ext.debugger/breakpoints.js:111-141 | as written: the markers are shifted as the change's rows require |
| Breakpoints.RemovalMovesMarkersUp | plugins-client/ext.debugger/breakpoints.js:130-139 | intended: a removal keeps the markers above it, and every later marker moves up by the number of rows removed |
| Breakpoints.Session.OnChangeIntended | plugins-client/ext.debugger/breakpoints.js:111-141 | intended: the markers are shifted as the change's action and rows require |
| Breakpoints.RemovalShiftsDownAsWritten | plugins-client/ext.debugger/breakpoints.js:119-129 | deleting rows 5 to 7 with a marker on row 8 moves the marker down to row 10 as written, and up to row 6 as intended |
| Breakpoints.Session.UpdateSession | plugins-client/ext.debugger/breakpoints.js:144-160 | as written: the markers become the rows built from the records of the document's script (none without a document), and no row shows a breakpoint afterwards |
| Breakpoints.Session.UpdateSessionIntended | plugins-client/ext.debugger/breakpoints.js:144-160 | intended: a row shows a breakpoint exactly where a record of the document's script sits |
| Breakpoints.RowClassAsWritten | plugins-client/ext.debugger/breakpoints.js:156 | as the operators bind, the marker is always the empty string |
| Breakpoints.RowClass | plugins-client/ext.debugger/breakpoints.js:156 | intended: the enabled or the disabled marker |
| Breakpoints.LastMark | plugins-client/ext.debugger/breakpoints.js:151-157 | the last record of the script at a row, or none |
| Breakpoints.RowsAt | plugins-client/ext.debugger/breakpoints.js:149-157 | a row is set exactly where a record of the script sits, with the marker of the last such record |
| Breakpoints.RowsAsWrittenShowNothing | plugins-client/ext.debugger/breakpoints.js:151-159 | as written, no row shows a breakpoint after `updateSession` |
| Breakpoints.RowsShowRecords | plugins-client/ext.debugger/breakpoints.js:151-159 | intended: a row shows an enabled or disabled breakpoint exactly where the script has a record |
| Breakpoints.BuildRows | plugins-client/ext.debugger/breakpoints.js:145-157 | the loop builds those rows |
| Breakpoints.DisplayText | plugins-client/ext.debugger/breakpoints.js:206-211 | the text after the first "/workspace/", or the whole path when it is absent |
| Breakpoints.DisplayTextAfterWorkspace | plugins-client/ext.debugger/breakpoints.js:206-211 | a path with its first "/workspace/" after a prefix displays as the rest |
| Breakpoints.NewRecord | plugins-client/ext.debugger/breakpoints.js:213-220 | a new record has `lineoffset` 0 and `enabled` "true", and its text is the display text, ":" and the 1-based row, which parses back |
| Breakpoints.FindIn | plugins-client/ext.debugger/breakpoints.js:197-198 | the query finds a record of the script at the row exactly when one exists |
| Breakpoints.RemovedRecord | plugins-client/ext.debugger/breakpoints.js:200-201 | removing a record removes exactly its (script, row) |
| Breakpoints.AppendedRecord | plugins-client/ext.debugger/breakpoints.js:221 | appending a record adds exactly its (script, row) |
| Breakpoints.ToggleFlips | plugins-client/ext.debugger/breakpoints.js:195-222 | toggling flips whether the script has a breakpoint at the row, keeps every other (script, row), and appends the new record |
| Breakpoints.EnabledShowsInGutter | plugins-client/ext.debugger/breakpoints.js:225-227 | intended (with `UpdateSessionIntended`): the value `setBreakPointEnabled` writes reads back as the corresponding marker; as written an updated session shows no marker for either value |
| Breakpoints.BreakpointModel.FindBreakpoint | plugins-client/ext.debugger/breakpoints.js:197-198 | the search finds the first record of the script at the row |
| Breakpoints.BreakpointModel.Toggle | plugins-client/ext.debugger/breakpoints.js:195-222 | the records become the toggled records, still one per (script, row) |
| Breakpoints.BreakpointModel.SetBreakPointEnabled | plugins-client/ext.debugger/breakpoints.js:225-227 | only the record's `enabled` attribute changes, to "true" or "false" |
| Breakpoints.IndexedHolds | plugins-client/ext.debugger/breakpoints.js:235-241 | a name is indexed exactly when it was before or a script of that name lies under the workspace directory; the last such script wins |
| Breakpoints.SyncedFile | plugins-client/ext.debugger/breakpoints.js:247-253 | a file whose name is indexed takes that script's id; any other file is unchanged |
| Breakpoints.Debugger.SyncTree | plugins-client/ext.debugger/breakpoints.js:229-256 | returns at once while a run is under way; without `this.paths` (the file never assigns it) it throws at the first workspace script, or else at the first file, and leaves `inSync` set so later calls return at once; with `this.paths` set up elsewhere it indexes the workspace scripts, gives every file its script id, and clears `inSync` on exit |

## Left out

- User interface: menus, panels, tooltips, the save button caption, list selection, previews, Ace rendering and scrolling, dock registration, and listener enable/disable wiring.
- Timers are taken as immediate calls: the autosave interval, the change debounce, the 100 ms close delay and `setTimeout(finalize)`.
- The diff worker's computation is opaque. Only the messages it is sent and its replies are modelled.
- The transport is modelled only as appends to the `sent` log. The `getemail` request is modelled only as the `defaultEmail` input.
- `localStorage` and JSON parsing are reduced to the stored-queue input of the constructor. Writing the emptied queue back to storage is not modelled.
- Date formatting is left out. The formatted `name` of a revision element is the `friendly` parameter.
- Collaboration detection (`isCollab`, `iAmMaster`) is reduced to inputs. Since `iAmMaster` always returns `true`, the collaboration-slave branch of `SaveRevision` is modelled for completeness but never runs as written.
- The XPath queries of the breakpoint model are replaced by searches over the record sequence.
- Editor calls are not modelled beyond the marker array: `session.setBreakpoint(row, bp)` is taken to set one slot, and `session.setBreakpoints(rows)` to replace the array.
- `onOpenFile`, `doAutoSave`, `onDocChange`, `applyRevision`, `previewRevision`, `loadRevision` and `onBeforeSaveWarning` are left out. They are UI or timer driven. `loadRevision`'s local path goes through the `getRevisionHistory` handler, which is modelled.
- `gotoBreakpoint` and the `settings.load` restore of breakpoints are left out. They have no effect on the modelled state.
- `finalTS[id] = groupObj` is not part of the grouping. For revision ids of at least 2^32 - 1, such as millisecond timestamps, it only adds a stray property to the array; a smaller id would be an array index and overwrite or extend an element of `groupedRevisionIds`, which the model does not capture.
- Breakpoints.Debugger.SyncTree: `this.paths` is never assigned in breakpoints.js, so the model takes it as a constructor input (`initialPaths`, none for the file as written); `fs` (line 242) is not declared in the file, and the tree's file nodes are an input. Breakpoints.BreakpointModel.Toggle reads and writes an undeclared `model` (lines 197 and 221), which the model takes to be the breakpoint model `updateSession` queries (`mdlDbgBreakpoints`); as written, without such a global, `toggleBreakpoint` throws a ReferenceError, which is not modelled.
- Breakpoints.BreakpointRecord: `line` is a natural number. A non-numeric `line` attribute, which makes `rows[NaN]` a plain property, is not modelled.
- Revisions.RevisionsPlugin.OnConfirmSave: inserting the confirmed revision's element at the top of an already populated list (lines 756-767) is not modelled.
- Revisions.RevisionsPlugin.OnRevisionHistory: the call to `populateModel` for the shown document (lines 778-781) is not part of this member. Its listing is `RevisionXml.PopulateModel`.
- Revisions.RevisionsPlugin.OnWorkerRecovery: writing the final content into the open tab's document (lines 666-675) is not modelled. The worker's `recovery` reply is taken as its revision plus flags.
- Revisions.RevisionsPlugin.AnswerQuestion: the reload of each tab and the forced save that follows it belong to the editor. The member only returns the tabs to reload.
- Revisions.RevisionsPlugin.OnCloseFile: deleting the document's change listener is not modelled.
- Revisions.RevisionsPlugin.AddUserToDocChangeList: a user object without an e-mail is taken as no user. The source would push `undefined`.
- Revisions.RevisionsPlugin.OnSettingsSaved: `tempEnableAutoSave` is never set in this file, so it is taken as false.

## Findings

| source | as written | input that shows it | evidently intended | confidence | as-written member | corrected member |
|---|---|---|---|---|---|---|
| plugins-client/ext.debugger/breakpoints.js:156 | `" ace_breakpoint " + enabled ? "" : "disabled "` binds as `(" ace_breakpoint " + enabled) ? …`, so every row is `""` | any breakpoint record of the shown script, for example one enabled record at line 3: row 3 becomes `""`, which the gutter reads as no breakpoint | `" ace_breakpoint " + (enabled ? "" : "disabled ")` | high, not executed | Breakpoints.RowsAsWrittenShowNothing | Breakpoints.Session.UpdateSessionIntended |
| plugins-client/ext.revisions/revisions.js:861 | `this.prevAutoSaveValue \|\| true`: `this` inside `finalize` is not the plugin, and `\|\| true` makes the value true anyway | autosave off when an external change arrives: after the question is answered, autosave is on | restore the recorded `self.prevAutoSaveValue` | high, not executed | Revisions.RevisionsPlugin.ExternalChangeAnswered | Revisions.RevisionsPlugin.ExternalChangeAnsweredRestoring |
| plugins-client/ext.revisions/revisions.js:564-567 | after submitting the head, `onAfterOnline` empties `offlineQueue` | two offline saves at 100 and 200: the confirmation of 100 finds no entry applying on it, so the save at 200 is never submitted | keep the chained tail so that each confirmation releases the next entry | medium, not executed | Offline.SecondOfflineSaveIsLost | Revisions.RevisionsPlugin.OnAfterOnlineKeepingTail |
| plugins-client/ext.debugger/breakpoints.js:119-139 | `len = range.end.row - range.start.row`, and only `len < 0` removes rows; Ace's change ranges have `end.row >= start.row` for removals too, so a removal of rows takes the `len > 0` branch and adds rows | removing rows 5 to 7 (a non-insert change from row 5 to row 7) with a marker on row 8: two empty rows are added and the marker moves to row 10 | for a removal action, take out the joined rows after `firstRow` as the `len < 0` branch does | medium, not executed (rests on the shape of Ace's change events) | Breakpoints.RemovalShiftsDownAsWritten | Breakpoints.Session.OnChangeIntended |
