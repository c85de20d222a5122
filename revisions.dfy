/** The revisions plugin's event handlers over its module state: the
    per-path revision objects (`rawRevisions`), the revisions sent to the
    server and not yet confirmed (`revisionQueue`), the revisions saved while
    offline (`offlineQueue`), the external-change bookkeeping, and one log of
    every message sent to the server (`ide.send`) or to the diff worker
    (`worker.postMessage`). */
module Revisions {
  import opened Wrappers
  import opened RevisionModel
  import opened Compaction
  import opened History
  import opened Offline

  // ---------------------------------------------------------------------
  // Values the handlers are given

  /** An open tab: the path its model holds (before whitespace stripping)
      and the document's current text. */
  datatype Tab = Tab(path: Path, value: string)

  /** What `save` reads of a page: whether it is a tab page (`$at`), the
      changed and code tests, and the `newfile` and `debug` attributes of
      its document node ("" when absent). */
  datatype PageState = PageState(hasAt: bool, hasChanged: bool, isCode: bool, newFileAttr: string, debugAttr: string)

  /** `save(page, forceSave)` goes on to `Save.quicksave`: it falls back to
      the current page when the given one is missing or not a tab page, and
      stops without a page, for an unchanged or non-code page unless forced,
      and for a new or debug document even when forced. */
  predicate SaveQuicksaves(page: Option<PageState>, current: Option<PageState>, forceSave: bool)
  {
    var p := if page.Some? && page.value.hasAt then page else current;
    && p.Some?
    && (forceSave || (p.value.hasChanged && p.value.isCode))
    && p.value.newFileAttr == "" && p.value.debugAttr == ""
  }

  /** What forcing changes: only the changed/code test is skipped. */
  lemma SaveGuard(page: Option<PageState>, current: Option<PageState>)
    ensures SaveQuicksaves(page, current, false) ==> SaveQuicksaves(page, current, true)
    ensures page.Some? && page.value.hasAt ==>
      (SaveQuicksaves(page, current, true) <==> page.value.newFileAttr == "" && page.value.debugAttr == "")
    ensures page.Some? && page.value.hasAt && !(page.value.hasChanged && page.value.isCode) ==>
      !SaveQuicksaves(page, current, false)
  {
  }

  /** A message id, a user e-mail: JavaScript reads 0 and "" as absent. */
  predicate IdTruthy(id: Option<int>)
  {
    id.Some? && id.value != 0
  }

  predicate EmailTruthy(email: Option<string>)
  {
    email.Some? && email.value != ""
  }

  // ---------------------------------------------------------------------
  // The effects the handlers are specified by

  /** `$getEditingUsers(path)`: the object's `usersChanged`, or a fresh
      empty list when there is no object or no list. */
  function EditingUsers(raw: map<Path, RevObj>, path: Path): seq<string>
  {
    if path in raw && raw[path].usersChanged.Some? then raw[path].usersChanged.value else []
  }

  /** The contributors of a new revision: the editing users, or the default
      user's e-mail when nobody is recorded. */
  function SaveContributors(raw: map<Path, RevObj>, path: Path, email: Option<string>): seq<string>
  {
    var users := EditingUsers(raw, path);
    if |users| == 0 && EmailTruthy(email) then users + [email.value] else users
  }

  /** The push into the list `$getEditingUsers` returned: when that list is
      the object's own `usersChanged`, the object sees the default e-mail. */
  function AliasPushed(raw: map<Path, RevObj>, path: Path, email: Option<string>): map<Path, RevObj>
  {
    if path in raw && raw[path].usersChanged.Some? && |raw[path].usersChanged.value| == 0 && EmailTruthy(email)
    then raw[path := raw[path].(usersChanged := Some([email.value]))]
    else raw
  }

  /** `$resetEditingUsers(path)` on the map. */
  function ResetUsers(raw: map<Path, RevObj>, path: Path): map<Path, RevObj>
  {
    if path in raw then raw[path := raw[path].(usersChanged := Some([]))] else raw
  }

  /** Once reset, a path has no editing users, and no other path's users
      change; an e-mail added to the object's list is read back. */
  lemma EditingUsersReset(raw: map<Path, RevObj>, path: Path, p: Path, email: string)
    ensures EditingUsers(ResetUsers(raw, path), path) == []
    ensures p != path ==> EditingUsers(ResetUsers(raw, path), p) == EditingUsers(raw, p)
    ensures path in raw && raw[path].usersChanged.Some? ==>
      var users := raw[path].usersChanged.value + [email];
      email in EditingUsers(raw[path := raw[path].(usersChanged := Some(users))], path)
  {
  }

  /** A new revision is credited to the people who edited the document,
      and to the default user only when nobody is recorded: it has
      contributors exactly when someone edited or the default e-mail is
      set, and when the object keeps a user list, that list afterwards
      holds exactly the credited contributors. */
  lemma SaveContributorsCredit(raw: map<Path, RevObj>, path: Path, email: Option<string>)
    ensures var cs := SaveContributors(raw, path, email);
      && (cs == [] <==> EditingUsers(raw, path) == [] && !EmailTruthy(email))
      && (forall c :: c in cs ==> c in EditingUsers(raw, path) || (EditingUsers(raw, path) == [] && email == Some(c)))
      && (forall c :: c in EditingUsers(raw, path) ==> c in cs)
      && (path in raw && raw[path].usersChanged.Some? ==> EditingUsers(AliasPushed(raw, path, email), path) == cs)
  {
  }

  /** An entry of `revisionQueue` that closing `path` removes. */
  predicate QueuedFor(e: QueueEntry, path: Path)
  {
    e.path != "" && e.path == path
  }

  /** The object after `confirmSave` stores a revision and regenerates the
      compact view. */
  function ConfirmedObj(o: RevObj, ts: int, rev: Revision,
                        sortKeys: set<int> -> seq<int>, split: seq<int> -> seq<seq<int>>): (r: RevObj)
    requires SortsKeys(sortKeys) && SplitsIntoChunks(split)
    ensures r.allRevisions == Some((if o.allRevisions.Some? then o.allRevisions.value else map[])[ts := rev])
    ensures CompactConsistent(r)
  {
    var all := if o.allRevisions.Some? then o.allRevisions.value else map[];
    Regenerated(o.(allRevisions := Some(all[ts := rev])), sortKeys, split)
  }

  /** What the `revisionSaved` listener does to the map: it creates the
      object of the entry it submits. */
  function ReplayedRaw(raw: map<Path, RevObj>, q: seq<NewRevisionData>, ts: int): map<Path, RevObj>
  {
    match FirstApplyingOn(q, ts) {
      case None => raw
      case Some(i) => Created(raw, q[i].path)
    }
  }

  /** The `revisionSaved` listener keeps every path's revisions and every
      object it finds. */
  lemma ReplayedKeepsRevisions(raw: map<Path, RevObj>, q: seq<NewRevisionData>, ts: int, p: Path)
    ensures AllOf(ReplayedRaw(raw, q, ts), p) == AllOf(raw, p)
    ensures p in raw ==> p in ReplayedRaw(raw, q, ts)
  {
    match FirstApplyingOn(q, ts) {
      case None =>
      case Some(i) => CreatedKeepsRevisions(raw, q[i].path, p);
    }
  }

  /** What the `revisionSaved` listener sends: the first entry applying on
      the saved timestamp, with its path's revision set, if there is one. */
  function ReplayedCmds(raw: map<Path, RevObj>, q: seq<NewRevisionData>, ts: int): (cs: seq<Command>)
    ensures |cs| <= 1
    ensures |cs| == 1 <==> FirstApplyingOn(q, ts).Some?
  {
    match FirstApplyingOn(q, ts) {
      case None => []
      case Some(i) => [NewRevisionMsg(q[i], Created(raw, q[i].path)[q[i].path].allRevisions)]
    }
  }

  /** `getRevision(t)` against the current document's revisions. */
  function LookupIn(raw: map<Path, RevObj>, current: Path, sortKeys: set<int> -> seq<int>, t: int): Option<RevisionLookup>
    requires SortsKeys(sortKeys)
  {
    var all := AllOf(raw, current);
    var ts := sortKeys(all.Keys);
    assert IsSortedKeyList(ts, all.Keys);
    RevisionLookupOf(all, ts, t)
  }

  /** The group a history request carries: every id of `HistoryGroupIds`
      looked up among the current document's revisions. */
  function HistoryGroup(raw: map<Path, RevObj>, o: RevObj, id: int, current: Path, sortKeys: set<int> -> seq<int>)
    : (g: map<int, Option<RevisionLookup>>)
    requires SortsKeys(sortKeys)
    ensures id in g && g[id].Some? <==> id in AllOf(raw, current)
  {
    map t | t in HistoryGroupIds(o, id) :: LookupIn(raw, current, sortKeys, t)
  }

  /** A map holding a lookup for each id of the group, and nothing else,
      is the group's request. */
  lemma HistoryGroupOf(raw: map<Path, RevObj>, o: RevObj, id: int, current: Path, sortKeys: set<int> -> seq<int>,
                       group: map<int, Option<RevisionLookup>>)
    requires SortsKeys(sortKeys)
    requires group.Keys == HistoryGroupIds(o, id)
    requires forall t :: t in group ==> group[t] == LookupIn(raw, current, sortKeys, t)
    ensures group == HistoryGroup(raw, o, id, current, sortKeys)
  {
  }

  /** Creating a revision object does not change what a lookup finds. */
  lemma LookupInCreated(raw: map<Path, RevObj>, current: Path, sortKeys: set<int> -> seq<int>, t: int)
    requires SortsKeys(sortKeys)
    ensures LookupIn(Created(raw, current), current, sortKeys, t) == LookupIn(raw, current, sortKeys, t)
  {
    CreatedKeepsRevisions(raw, current, current);
  }

  /** The map after a history reply for `path` is taken in: the object is
      created, given the reply's revisions if it carries any, and its
      compact view regenerated. */
  function HistoryRaw(raw: map<Path, RevObj>, path: Path, revisions: Option<map<int, Revision>>,
                      sortKeys: set<int> -> seq<int>, split: seq<int> -> seq<seq<int>>): (r: map<Path, RevObj>)
    requires SortsKeys(sortKeys) && SplitsIntoChunks(split)
    ensures path in r && r.Keys == raw.Keys + {path}
    ensures revisions.Some? ==> r[path].allRevisions == revisions && CompactConsistent(r[path])
    ensures revisions.None? ==> r[path].allRevisions == Created(raw, path)[path].allRevisions
    ensures forall p :: p in raw && p != path ==> r[p] == raw[p]
  {
    var o := Created(raw, path)[path];
    var o' := if revisions.Some? then o.(allRevisions := revisions) else o;
    Created(raw, path)[path := Regenerated(o', sortKeys, split)]
  }

  /** The recovery requests `getRealFileContents` posts: one per open tab
      showing the path, in tab order. */
  function RecoveryRequests(tabs: seq<Tab>, strip: Path -> Path, path: Path, contents: string, store: bool): (cs: seq<Command>)
    ensures |cs| <= |tabs|
  {
    if tabs == [] then []
    else
      var t := tabs[|tabs| - 1];
      RecoveryRequests(tabs[..|tabs| - 1], strip, path, contents, store)
        + (if strip(t.path) == path then [RecoveryMsg(t.value, contents, path, store)] else [])
  }

  /** Every recovery request is for the path, carries the server's content
      and the store flag, and a path no tab shows gets none. */
  lemma {:induction false} RecoveryRequestsFor(tabs: seq<Tab>, strip: Path -> Path, path: Path, contents: string, store: bool)
    ensures forall c :: c in RecoveryRequests(tabs, strip, path, contents, store) ==>
      c.RecoveryMsg? && c.path == path && c.realContent == contents && c.storeAsRevision == store
    ensures (forall k :: 0 <= k < |tabs| ==> strip(tabs[k].path) != path) ==> RecoveryRequests(tabs, strip, path, contents, store) == []
    decreases |tabs|
  {
    if tabs != [] {
      RecoveryRequestsFor(tabs[..|tabs| - 1], strip, path, contents, store);
    }
  }

  /** The positions of the open tabs that show `path`. */
  ghost function TabsShowing(tabs: seq<Tab>, strip: Path -> Path, path: Path): set<nat>
  {
    set k: nat | k < |tabs| && strip(tabs[k].path) == path
  }

  /** One more tab adds its own position when it shows the path. */
  lemma TabsShowingSnoc(tabs: seq<Tab>, strip: Path -> Path, path: Path)
    requires tabs != []
    ensures var n := |tabs| - 1;
      && n !in TabsShowing(tabs[..n], strip, path)
      && TabsShowing(tabs, strip, path)
         == TabsShowing(tabs[..n], strip, path) + (if strip(tabs[n].path) == path then {n} else {})
  {
    var n := |tabs| - 1;
    assert forall k :: 0 <= k < n ==> tabs[..n][k] == tabs[k];
  }

  /** Each tab showing the path gets its own recovery request: there are as
      many requests as such tabs, and each of them carries its tab's
      content. */
  lemma {:induction false} RecoveryRequestsEvery(tabs: seq<Tab>, strip: Path -> Path, path: Path, contents: string, store: bool)
    ensures |RecoveryRequests(tabs, strip, path, contents, store)| == |TabsShowing(tabs, strip, path)|
    ensures forall k :: 0 <= k < |tabs| && strip(tabs[k].path) == path ==>
      RecoveryMsg(tabs[k].value, contents, path, store) in RecoveryRequests(tabs, strip, path, contents, store)
    decreases |tabs|
  {
    if tabs != [] {
      var n := |tabs| - 1;
      var init := tabs[..n];
      RecoveryRequestsEvery(init, strip, path, contents, store);
      TabsShowingSnoc(tabs, strip, path);
      var rs := RecoveryRequests(tabs, strip, path, contents, store);
      var rs0 := RecoveryRequests(init, strip, path, contents, store);
      assert rs == rs0 + (if strip(tabs[n].path) == path then [RecoveryMsg(tabs[n].value, contents, path, store)] else []);
      forall k | 0 <= k < |tabs| && strip(tabs[k].path) == path
        ensures RecoveryMsg(tabs[k].value, contents, path, store) in rs
      {
        if k < n {
          assert init[k] == tabs[k];
        }
      }
    }
  }

  /** The stripped paths of the open tabs that are waiting for a decision,
      in tab order. */
  function ChangedTabs(tabs: seq<Path>, strip: Path -> Path, changed: seq<Path>): (ps: seq<Path>)
    ensures |ps| <= |tabs|
  {
    if tabs == [] then []
    else
      var p := strip(tabs[|tabs| - 1]);
      ChangedTabs(tabs[..|tabs| - 1], strip, changed) + (if p in changed then [p] else [])
  }

  /** Only paths waiting for a decision are reloaded or kept. */
  lemma {:induction false} ChangedTabsChanged(tabs: seq<Path>, strip: Path -> Path, changed: seq<Path>)
    ensures forall p :: p in ChangedTabs(tabs, strip, changed) ==> p in changed
    decreases |tabs|
  {
    if tabs != [] {
      ChangedTabsChanged(tabs[..|tabs| - 1], strip, changed);
    }
  }

  /** The positions of the open tabs whose path waits for a decision. */
  ghost function TabsWaiting(tabs: seq<Path>, strip: Path -> Path, changed: seq<Path>): set<nat>
  {
    set k: nat | k < |tabs| && strip(tabs[k]) in changed
  }

  /** One more tab adds its own position when its path waits. */
  lemma TabsWaitingSnoc(tabs: seq<Path>, strip: Path -> Path, changed: seq<Path>)
    requires tabs != []
    ensures var n := |tabs| - 1;
      && n !in TabsWaiting(tabs[..n], strip, changed)
      && TabsWaiting(tabs, strip, changed)
         == TabsWaiting(tabs[..n], strip, changed) + (if strip(tabs[n]) in changed then {n} else {})
  {
    var n := |tabs| - 1;
    assert forall k :: 0 <= k < n ==> tabs[..n][k] == tabs[k];
  }

  /** Every open tab whose path waits for a decision is reloaded or kept,
      once per tab. */
  lemma {:induction false} ChangedTabsEvery(tabs: seq<Path>, strip: Path -> Path, changed: seq<Path>)
    ensures |ChangedTabs(tabs, strip, changed)| == |TabsWaiting(tabs, strip, changed)|
    ensures forall k :: 0 <= k < |tabs| && strip(tabs[k]) in changed ==> strip(tabs[k]) in ChangedTabs(tabs, strip, changed)
    decreases |tabs|
  {
    if tabs != [] {
      var n := |tabs| - 1;
      var init := tabs[..n];
      ChangedTabsEvery(init, strip, changed);
      TabsWaitingSnoc(tabs, strip, changed);
      var ps := ChangedTabs(tabs, strip, changed);
      var ps0 := ChangedTabs(init, strip, changed);
      assert ps == ps0 + (if strip(tabs[n]) in changed then [strip(tabs[n])] else []);
      forall k | 0 <= k < |tabs| && strip(tabs[k]) in changed
        ensures strip(tabs[k]) in ps
      {
        if k < n {
          assert init[k] == tabs[k];
        }
      }
    }
  }

  /** The `getRealFileContents` requests with `storeAsRevision` that
      keeping the local content sends, one per changed tab. */
  function KeepRequests(ps: seq<Path>): seq<Command>
  {
    seq(|ps|, k requires 0 <= k < |ps| => GetRealFileContentsCmd(ps[k], true))
  }

  /** The autosave setting `finalize` writes, as written: `this` is not the
      plugin inside `finalize`, so `this.prevAutoSaveValue` is whatever the
      global object holds (nothing), and `|| true` makes it true anyway. */
  function FinalizedAutoSaveAsWritten(globalPrev: Option<bool>): (r: bool)
    ensures r
  {
    (globalPrev.Some? && globalPrev.value) || true
  }

  /** Revision objects that agree on everything compaction is about. */
  predicate SameHistory(o: RevObj, o': RevObj)
  {
    o.allRevisions == o'.allRevisions && o.groupedRevisionIds == o'.groupedRevisionIds
      && o.compactRevisions == o'.compactRevisions
  }

  lemma SameHistoryConsistent(o: RevObj, o': RevObj)
    requires SameHistory(o, o') && CompactConsistent(o)
    ensures CompactConsistent(o')
  {
  }

  /** The default e-mail pushed into the editing users is forgotten once
      the users are reset. */
  lemma AliasPushedReset(raw: map<Path, RevObj>, path: Path, email: Option<string>)
    ensures ResetUsers(AliasPushed(raw, path, email), path) == ResetUsers(raw, path)
    ensures path in AliasPushed(raw, path, email) <==> path in raw
  {
  }

  lemma AliasPushedCreated(raw: map<Path, RevObj>, path: Path, email: Option<string>)
    ensures var o := Created(raw, path)[path];
      var o' := Created(AliasPushed(raw, path, email), path)[path];
      o'.hasBeenSentToWorker == o.hasBeenSentToWorker && o'.allRevisions == o.allRevisions
      && ResetUsers(Created(AliasPushed(raw, path, email), path)[path := o'.(hasBeenSentToWorker := true)], path)
         == Created(raw, path)[path := o.(hasBeenSentToWorker := true, usersChanged := Some([]))]
  {
  }

  lemma RecoveryRequestsSnoc(tabs: seq<Tab>, i: nat, strip: Path -> Path, path: Path, contents: string, store: bool)
    requires i < |tabs|
    ensures RecoveryRequests(tabs[..i + 1], strip, path, contents, store)
      == RecoveryRequests(tabs[..i], strip, path, contents, store)
         + (if strip(tabs[i].path) == path then [RecoveryMsg(tabs[i].value, contents, path, store)] else [])
  {
    assert tabs[..i + 1][..i] == tabs[..i];
  }

  lemma ChangedTabsSnoc(tabs: seq<Path>, i: nat, strip: Path -> Path, changed: seq<Path>)
    requires i < |tabs|
    ensures ChangedTabs(tabs[..i + 1], strip, changed)
      == ChangedTabs(tabs[..i], strip, changed) + (if strip(tabs[i]) in changed then [strip(tabs[i])] else [])
  {
    assert tabs[..i + 1][..i] == tabs[..i];
  }

  // ---------------------------------------------------------------------
  // The plugin

  class RevisionsPlugin {
    var rawRevisions: map<Path, RevObj>
    var revisionQueue: map<int, QueueEntry>
    var offlineQueue: seq<NewRevisionData>
    /** Paths changed on disk and waiting for the reload-or-keep decision. */
    var changedPaths: seq<Path>
    var isAutoSaveEnabled: bool
    /** The `general/@autosaveenabled` setting. */
    var autoSaveSetting: bool
    var prevAutoSaveValue: bool
    /** Every message sent, to the server or to the diff worker, in order. */
    var sent: seq<Command>

    /** Every revision object's groups partition its revisions and its
        compact map is the one they give. */
    ghost predicate Valid()
      reads this
    {
      forall p :: p in rawRevisions ==> CompactConsistent(rawRevisions[p])
    }

    /** `hook`: the offline queue comes from local storage, or is empty when
        none was stored or it could not be parsed (`storedQueue` None);
        autosave follows the loaded setting. */
    constructor (storedQueue: Option<seq<NewRevisionData>>, autoSave: bool)
      ensures Valid()
      ensures rawRevisions == map[] && revisionQueue == map[] && changedPaths == [] && sent == []
      ensures offlineQueue == if storedQueue.Some? then storedQueue.value else []
      ensures autoSaveSetting == autoSave && isAutoSaveEnabled == autoSave && !prevAutoSaveValue
    {
      rawRevisions := map[];
      revisionQueue := map[];
      offlineQueue := if storedQueue.Some? then storedQueue.value else [];
      changedPaths := [];
      autoSaveSetting := autoSave;
      isAutoSaveEnabled := autoSave;
      prevAutoSaveValue := false;
      sent := [];
    }

    /** `$getRevisionObject(path)`: the path's object, created with the
        compact view on when there is none. */
    method GetRevisionObject(path: Path) returns (o: RevObj)
      requires Valid()
      modifies this`rawRevisions
      ensures Valid()
      ensures rawRevisions == Created(old(rawRevisions), path) && o == rawRevisions[path]
      ensures path in old(rawRevisions) ==> o == old(rawRevisions)[path]
      ensures path !in old(rawRevisions) ==> o == NewRevObj()
    {
      if path !in rawRevisions {
        rawRevisions := rawRevisions[path := NewRevObj()];
      }
      o := rawRevisions[path];
    }

    /** Replaces a path's object by one with the same history. */
    method PutObject(path: Path, o: RevObj)
      requires Valid() && path in rawRevisions && SameHistory(rawRevisions[path], o)
      modifies this`rawRevisions
      ensures Valid()
      ensures rawRevisions == old(rawRevisions)[path := o]
    {
      SameHistoryConsistent(rawRevisions[path], o);
      rawRevisions := rawRevisions[path := o];
    }

    /** The `settings.save` listener: without settings data nothing
        changes; otherwise autosave follows the setting
        (`tempEnableAutoSave` is never set). */
    method OnSettingsSaved(hasData: bool)
      modifies this`isAutoSaveEnabled
      ensures !hasData ==> isAutoSaveEnabled == old(isAutoSaveEnabled)
      ensures hasData ==> isAutoSaveEnabled == autoSaveSetting
    {
      if !hasData {
        return;
      }
      isAutoSaveEnabled := autoSaveSetting || false;
    }

    /** The `removefile` listener: asks the server to drop the file's
        revisions. */
    method OnRemoveFile(rawPath: Path, isFolder: bool, strip: Path -> Path)
      modifies this`sent
      ensures sent == old(sent) + [RemoveRevisionCmd(strip(rawPath), isFolder)]
    {
      sent := sent + [RemoveRevisionCmd(strip(rawPath), isFolder)];
    }

    /** The `updatefile` listener: with both paths given, the old path's
        object moves to the new path, the old key is gone (also when both
        paths are the same), other paths keep theirs, and the server is told
        to move the revisions. */
    method OnRename(rawPath: Path, rawNewPath: Path, strip: Path -> Path)
      requires Valid()
      modifies this`rawRevisions, this`sent
      ensures Valid()
      ensures rawPath == "" || rawNewPath == "" ==> rawRevisions == old(rawRevisions) && sent == old(sent)
      ensures rawPath != "" && rawNewPath != "" ==>
        var path := strip(rawPath);
        var newPath := strip(rawNewPath);
        && sent == old(sent) + [MoveRevisionCmd(path, newPath)]
        && (path !in old(rawRevisions) ==> rawRevisions == old(rawRevisions))
        && (path in old(rawRevisions) ==> path !in rawRevisions)
        && (path in old(rawRevisions) && newPath != path ==>
              newPath in rawRevisions && rawRevisions[newPath] == old(rawRevisions)[path])
        && (forall p :: p != path && p != newPath ==>
              (p in rawRevisions <==> p in old(rawRevisions)) && (p in rawRevisions ==> rawRevisions[p] == old(rawRevisions)[p]))
    {
      if rawPath != "" && rawNewPath != "" {
        var path := strip(rawPath);
        var newPath := strip(rawNewPath);
        if path in rawRevisions {
          rawRevisions := rawRevisions[newPath := rawRevisions[path]];
          rawRevisions := rawRevisions - {path};
        }
        sent := sent + [MoveRevisionCmd(path, newPath)];
      }
    }

    /** The deleting `for (var rev in revisionQueue)` loop of the close
        handler: exactly the entries queued for `path` go. The model visits
        the keys through `sortKeys`; the for-in visits these timestamp keys
        in insertion order, and which entries are deleted does not depend on
        the order. */
    method DropQueuedFor(path: Path, sortKeys: set<int> -> seq<int>)
      requires SortsKeys(sortKeys)
      modifies this`revisionQueue
      ensures forall ts :: ts in revisionQueue <==> ts in old(revisionQueue) && !QueuedFor(old(revisionQueue)[ts], path)
      ensures forall ts :: ts in revisionQueue ==> revisionQueue[ts] == old(revisionQueue)[ts]
    {
      var keys := sortKeys(revisionQueue.Keys);
      assert IsSortedKeyList(keys, revisionQueue.Keys);
      var i := 0;
      while i < |keys|
        invariant 0 <= i <= |keys|
        invariant forall ts :: ts in revisionQueue <==>
          ts in old(revisionQueue) && (ts in keys[i..] || !QueuedFor(old(revisionQueue)[ts], path))
        invariant forall ts :: ts in revisionQueue ==> revisionQueue[ts] == old(revisionQueue)[ts]
      {
        var rev := keys[i];
        assert rev in keys[i..];
        SortedTail(keys, i);
        if revisionQueue[rev].path != "" && revisionQueue[rev].path == path {
          revisionQueue := revisionQueue - {rev};
        }
        i := i + 1;
      }
    }

    /** The `closefile` listener: whether `save(page)` quicksaves, then (the
        delayed part, taken at once) the path's object goes, the worker is
        told, and exactly the queued revisions of the path are dropped. */
    method OnCloseFile(path: Path, page: PageState, current: Option<PageState>, sortKeys: set<int> -> seq<int>)
      returns (quicksaved: bool)
      requires Valid() && SortsKeys(sortKeys)
      modifies this`rawRevisions, this`revisionQueue, this`sent
      ensures Valid()
      ensures quicksaved == SaveQuicksaves(Some(page), current, false)
      ensures rawRevisions == old(rawRevisions) - {path}
      ensures sent == old(sent) + [CloseFileMsg(path)]
      ensures forall ts :: ts in revisionQueue <==> ts in old(revisionQueue) && !QueuedFor(old(revisionQueue)[ts], path)
      ensures forall ts :: ts in revisionQueue ==> revisionQueue[ts] == old(revisionQueue)[ts]
    {
      quicksaved := SaveQuicksaves(Some(page), current, false);
      if path in rawRevisions {
        rawRevisions := rawRevisions - {path};
      }
      sent := sent + [CloseFileMsg(path)];
      DropQueuedFor(path, sortKeys);
    }

    /** `$resetEditingUsers(path)`: the list becomes empty; reading it back
        throws when the path has no object. */
    method ResetEditingUsers(path: Path) returns (thrown: bool)
      requires Valid()
      modifies this`rawRevisions
      ensures Valid()
      ensures rawRevisions == ResetUsers(old(rawRevisions), path)
      ensures thrown <==> path !in old(rawRevisions)
      ensures !thrown ==> rawRevisions[path].usersChanged == Some([])
    {
      if path in rawRevisions {
        PutObject(path, rawRevisions[path].(usersChanged := Some([])));
      }
      thrown := path !in rawRevisions;
    }

    /** `addUserToDocChangeList(user, doc)`: the e-mail joins the path's
        list once; an object without a list makes it throw. */
    method AddUserToDocChangeList(email: Option<string>, docPath: Option<Path>) returns (thrown: bool)
      requires Valid()
      modifies this`rawRevisions
      ensures Valid()
      ensures thrown <==> email.Some? && docPath.Some? && docPath.value in old(rawRevisions)
                          && old(rawRevisions)[docPath.value].usersChanged.None?
      ensures thrown || email.None? || docPath.None? || docPath.value !in old(rawRevisions) ==> rawRevisions == old(rawRevisions)
      ensures !thrown && email.Some? && docPath.Some? && docPath.value in old(rawRevisions) ==>
        var path := docPath.value;
        var users := old(rawRevisions)[path].usersChanged.value;
        rawRevisions == old(rawRevisions)[path := old(rawRevisions)[path].(usersChanged :=
          Some(if email.value in users then users else users + [email.value]))]
    {
      thrown := false;
      if email.Some? && docPath.Some? {
        var path := docPath.value;
        if path in rawRevisions {
          var stack := rawRevisions[path];
          if stack.usersChanged.None? {
            thrown := true;
            return;
          }
          if email.value !in stack.usersChanged.value {
            PutObject(path, stack.(usersChanged := Some(stack.usersChanged.value + [email.value])));
          }
        }
      }
    }

    /** `saveRevision(doc, silentsave, restoring)`. Offline, the revision is
        queued with the current time as its `ts` (and resetting the users
        throws when the path has no object). Online and not a collaboration
        slave, the worker gets the full revision set only the first time,
        after which the flag is set, and the users are reset. A
        collaboration slave sends nothing. */
    method SaveRevision(docPath: Path, pageIsCode: bool, silentsave: bool, restoring: Option<int>, lastContent: string,
                        online: bool, now: int, collabSlave: bool, defaultEmail: Option<string>)
      returns (thrown: bool)
      requires Valid()
      modifies this`rawRevisions, this`offlineQueue, this`sent
      ensures Valid()
      ensures !pageIsCode ==> !thrown && rawRevisions == old(rawRevisions) && offlineQueue == old(offlineQueue) && sent == old(sent)
      ensures pageIsCode && !online ==>
        && offlineQueue == old(offlineQueue) + [NewRevisionData(docPath, silentsave, restoring,
             SaveContributors(old(rawRevisions), docPath, defaultEmail), lastContent, Some(now), None)]
        && rawRevisions == ResetUsers(old(rawRevisions), docPath)
        && sent == old(sent)
        && (thrown <==> docPath !in old(rawRevisions))
      ensures pageIsCode && online && collabSlave ==>
        !thrown && rawRevisions == AliasPushed(old(rawRevisions), docPath, defaultEmail)
        && offlineQueue == old(offlineQueue) && sent == old(sent)
      ensures pageIsCode && online && !collabSlave ==>
        var o := Created(old(rawRevisions), docPath)[docPath];
        && !thrown && offlineQueue == old(offlineQueue)
        && rawRevisions == Created(old(rawRevisions), docPath)[docPath := o.(hasBeenSentToWorker := true, usersChanged := Some([]))]
        && sent == old(sent) + [
             if o.hasBeenSentToWorker then NewRevisionShortMsg(docPath, lastContent)
             else NewRevisionMsg(NewRevisionData(docPath, silentsave, restoring,
                    SaveContributors(old(rawRevisions), docPath, defaultEmail), lastContent, None, None), o.allRevisions)]
      ensures pageIsCode && online && !collabSlave ==>
        && rawRevisions[docPath].hasBeenSentToWorker && rawRevisions[docPath].usersChanged == Some([])
        && |sent| == |old(sent)| + 1
        && (sent[|sent| - 1].NewRevisionMsg? <==> !(docPath in old(rawRevisions) && old(rawRevisions)[docPath].hasBeenSentToWorker))
    {
      thrown := false;
      if !pageIsCode {
        return;
      }
      var contributors := PushDefaultUser(docPath, defaultEmail);
      var data := NewRevisionData(docPath, silentsave, restoring, contributors, lastContent, None, None);
      if !online {
        offlineQueue := offlineQueue + [data.(ts := Some(now))];
        AliasPushedReset(old(rawRevisions), docPath, defaultEmail);
      } else {
        if collabSlave {
          return;
        }
        SubmitToWorker(data);
        AliasPushedCreated(old(rawRevisions), docPath, defaultEmail);
      }
      thrown := ResetEditingUsers(docPath);
    }

    /** The contributors of `saveRevision`: the editing users, or the default
        e-mail pushed into the (possibly shared) empty list. */
    method PushDefaultUser(docPath: Path, defaultEmail: Option<string>) returns (contributors: seq<string>)
      requires Valid()
      modifies this`rawRevisions
      ensures Valid()
      ensures contributors == SaveContributors(old(rawRevisions), docPath, defaultEmail)
      ensures rawRevisions == AliasPushed(old(rawRevisions), docPath, defaultEmail)
    {
      contributors := EditingUsers(rawRevisions, docPath);
      assert docPath in rawRevisions && rawRevisions[docPath].usersChanged.Some? ==>
        contributors == rawRevisions[docPath].usersChanged.value;
      if |contributors| == 0 && EmailTruthy(defaultEmail) {
        contributors := contributors + [defaultEmail.value];
        // the list pushed to is the object's own when it has one
        if docPath in rawRevisions && rawRevisions[docPath].usersChanged.Some? {
          assert contributors == [defaultEmail.value];
          PutObject(docPath, rawRevisions[docPath].(usersChanged := Some(contributors)));
          assert rawRevisions == AliasPushed(old(rawRevisions), docPath, defaultEmail);
        } else {
          assert rawRevisions == AliasPushed(old(rawRevisions), docPath, defaultEmail);
        }
      } else {
        assert rawRevisions == AliasPushed(old(rawRevisions), docPath, defaultEmail);
      }
    }

    /** The online branch of `saveRevision`: the full revision set goes to
        the worker the first time only, the content alone afterwards. */
    method SubmitToWorker(data: NewRevisionData)
      requires Valid()
      modifies this`rawRevisions, this`sent
      ensures Valid()
      ensures var o := Created(old(rawRevisions), data.path)[data.path];
        && rawRevisions == Created(old(rawRevisions), data.path)[data.path := o.(hasBeenSentToWorker := true)]
        && sent == old(sent) + [if o.hasBeenSentToWorker then NewRevisionShortMsg(data.path, data.lastContent)
                                else NewRevisionMsg(data, o.allRevisions)]
    {
      var revObj := GetRevisionObject(data.path);
      if revObj.hasBeenSentToWorker {
        sent := sent + [NewRevisionShortMsg(data.path, data.lastContent)];
      } else {
        sent := sent + [NewRevisionMsg(data, revObj.allRevisions)];
        PutObject(data.path, revObj.(hasBeenSentToWorker := true));
      }
    }

    /** `toggleListView`: the current document's object flips its view and
        forgets its previews. */
    method ToggleListView(currentPath: Path)
      requires Valid()
      modifies this`rawRevisions
      ensures Valid()
      ensures var o := Created(old(rawRevisions), currentPath)[currentPath];
        rawRevisions == Created(old(rawRevisions), currentPath)[currentPath := o.(useCompactList := !o.useCompactList, previewCache := {})]
    {
      var revObj := GetRevisionObject(currentPath);
      PutObject(currentPath, revObj.(useCompactList := !revObj.useCompactList, previewCache := {}));
    }

    // -------------------------------------------------------------------
    // Worker replies

    /** The worker's `newRevision`: an empty first patch is dropped; an empty
        patch array throws on `patch[0].length`; otherwise the revision is
        queued under its `ts` with its path and sent to the server. */
    method OnWorkerNewRevision(path: Path, revision: Revision) returns (thrown: bool)
      modifies this`revisionQueue, this`sent
      ensures thrown <==> |revision.patch| == 0
      ensures thrown || revision.patch[0] == "" ==> revisionQueue == old(revisionQueue) && sent == old(sent)
      ensures !thrown && revision.patch[0] != "" ==>
        && revisionQueue == old(revisionQueue)[revision.info.ts := QueueEntry(path, revision)]
        && sent == old(sent) + [SaveRevisionCmd(path, revision, false)]
    {
      if |revision.patch| == 0 {
        return true;
      }
      thrown := false;
      if revision.patch[0] == "" {
        return;
      }
      revisionQueue := revisionQueue[revision.info.ts := QueueEntry(path, revision)];
      sent := sent + [SaveRevisionCmd(path, revision, false)];
    }

    /** The worker's `newRevision.error`: the next save sends the full
        revision set again. */
    method OnWorkerNewRevisionError(path: Path)
      requires Valid()
      modifies this`rawRevisions
      ensures Valid()
      ensures var o := Created(old(rawRevisions), path)[path];
        rawRevisions == Created(old(rawRevisions), path)[path := o.(hasBeenSentToWorker := false)]
    {
      var revObj := GetRevisionObject(path);
      PutObject(path, revObj.(hasBeenSentToWorker := false));
    }

    /** The worker's `recovery` judgment: with `storeAsRevision` the
        revision is saved with a forced list response (the open document
        takes the final content); otherwise, when it asks for a dialog and
        none is showing, the user is asked. */
    method OnWorkerRecovery(path: Path, revision: Revision, storeAsRevision: bool, inDialog: bool, questionVisible: bool)
      returns (askUser: bool)
      modifies this`sent
      ensures storeAsRevision ==> !askUser && sent == old(sent) + [SaveRevisionCmd(path, revision, true)]
      ensures !storeAsRevision ==> sent == old(sent) && (askUser <==> inDialog && !questionVisible)
    {
      askUser := false;
      if storeAsRevision {
        sent := sent + [SaveRevisionCmd(path, revision, true)];
      } else if inDialog && !questionVisible {
        askUser := true;
      }
    }

    // -------------------------------------------------------------------
    // Server messages

    /** `getRevision(id)`: looks the id up among the current document's
        revisions (creating its object). */
    method GetRevision(currentPath: Path, id: int, sortKeys: set<int> -> seq<int>) returns (r: Option<RevisionLookup>)
      requires Valid() && SortsKeys(sortKeys)
      modifies this`rawRevisions
      ensures Valid()
      ensures rawRevisions == Created(old(rawRevisions), currentPath)
      ensures r == LookupIn(old(rawRevisions), currentPath, sortKeys, id)
      ensures r.Some? <==> id in AllOf(old(rawRevisions), currentPath)
    {
      var revObj := GetRevisionObject(currentPath);
      var all := if revObj.allRevisions.Some? then revObj.allRevisions.value else map[];
      var tstamps := sortKeys(all.Keys);
      assert IsSortedKeyList(tstamps, all.Keys);
      CreatedKeepsRevisions(old(rawRevisions), currentPath, currentPath);
      r := LookupRevision(all, tstamps, id);
    }

    /** The `groupedRevs.forEach` of the history request: every member of
        the group looked up. */
    method CollectGroup(g: seq<int>, currentPath: Path, sortKeys: set<int> -> seq<int>)
      returns (group: map<int, Option<RevisionLookup>>)
      requires Valid() && SortsKeys(sortKeys) && |g| > 0
      modifies this`rawRevisions
      ensures Valid()
      ensures rawRevisions == Created(old(rawRevisions), currentPath)
      ensures group.Keys == Members(g)
      ensures forall t :: t in group ==> group[t] == LookupIn(old(rawRevisions), currentPath, sortKeys, t)
    {
      group := map[];
      var j := 0;
      while j < |g|
        invariant 0 <= j <= |g|
        invariant Valid()
        invariant rawRevisions == if j == 0 then old(rawRevisions) else Created(old(rawRevisions), currentPath)
        invariant group.Keys == set t | t in g[..j]
        invariant forall t :: t in group ==> group[t] == LookupIn(old(rawRevisions), currentPath, sortKeys, t)
      {
        ghost var before := rawRevisions;
        var l := GetRevision(currentPath, g[j], sortKeys);
        CreatedKeepsRevisions(old(rawRevisions), currentPath, currentPath);
        assert LookupIn(before, currentPath, sortKeys, g[j]) == LookupIn(old(rawRevisions), currentPath, sortKeys, g[j]);
        assert g[..j + 1] == g[..j] + [g[j]];
        group := group[g[j] := l];
        j := j + 1;
      }
      assert g[..|g|] == g;
    }

    /** The worker request of a history reply: the group of the id (see
        `HistoryGroupIds`), every member looked up among the current
        document's revisions. */
    method PostHistory(o: RevObj, id: int, nextAction: string, currentPath: Path, sortKeys: set<int> -> seq<int>)
      requires Valid() && SortsKeys(sortKeys)
      modifies this`rawRevisions, this`sent
      ensures Valid()
      ensures rawRevisions == Created(old(rawRevisions), currentPath)
      ensures sent == old(sent) + [HistoryMsg(id, HistoryGroup(old(rawRevisions), o, id, currentPath, sortKeys), nextAction)]
    {
      var gs := o.groupedRevisionIds;
      ghost var raw0 := rawRevisions;
      if o.useCompactList && |gs| > 0 {
        var k := FindGroupWith(gs, id);
        if k.Some? {
          var group := CollectGroup(gs[k.value], currentPath, sortKeys);
          if |group.Keys| > 1 {
            HistoryGroupOf(raw0, o, id, currentPath, sortKeys, group);
            sent := sent + [HistoryMsg(id, group, nextAction)];
            return;
          }
        }
      }
      ghost var before := rawRevisions;
      var l := GetRevision(currentPath, id, sortKeys);
      LookupInCreated(raw0, currentPath, sortKeys, id);
      assert LookupIn(before, currentPath, sortKeys, id) == LookupIn(raw0, currentPath, sortKeys, id);
      HistoryGroupOf(raw0, o, id, currentPath, sortKeys, map[id := l]);
      sent := sent + [HistoryMsg(id, map[id := l], nextAction)];
    }

    /** The `getRevisionHistory` reply. Its revisions (if any) replace the
        object's, and the compact view is rebuilt. With an id and a next
        action, the worker is asked to rebuild the revision for the id's
        group (see `PostHistory`). */
    method OnRevisionHistory(path: Path, revisions: Option<map<int, Revision>>, nextAction: string, id: Option<int>,
                             currentPath: Path, guidedTour: bool,
                             sortKeys: set<int> -> seq<int>, split: seq<int> -> seq<seq<int>>)
      requires Valid() && SortsKeys(sortKeys) && SplitsIntoChunks(split)
      modifies this`rawRevisions, this`sent
      ensures Valid()
      ensures guidedTour ==> rawRevisions == Created(old(rawRevisions), path) && sent == old(sent)
      ensures !guidedTour && (nextAction == "" || !IdTruthy(id)) ==>
        rawRevisions == HistoryRaw(old(rawRevisions), path, revisions, sortKeys, split) && sent == old(sent)
      ensures !guidedTour && nextAction != "" && IdTruthy(id) ==>
        var raw1 := HistoryRaw(old(rawRevisions), path, revisions, sortKeys, split);
        && rawRevisions == Created(raw1, currentPath)
        && sent == old(sent) + [HistoryMsg(id.value, HistoryGroup(raw1, raw1[path], id.value, currentPath, sortKeys), nextAction)]
    {
      if guidedTour {
        var _ := GetRevisionObject(path);
        return;
      }
      var revObj := TakeHistory(path, revisions, sortKeys, split);
      if nextAction == "" || !IdTruthy(id) {
        return;
      }
      PostHistory(revObj, id.value, nextAction, currentPath, sortKeys);
    }

    /** The revisions of a history reply replace the object's, and its
        compact view is rebuilt. */
    method TakeHistory(path: Path, revisions: Option<map<int, Revision>>,
                       sortKeys: set<int> -> seq<int>, split: seq<int> -> seq<seq<int>>) returns (revObj: RevObj)
      requires Valid() && SortsKeys(sortKeys) && SplitsIntoChunks(split)
      modifies this`rawRevisions
      ensures Valid()
      ensures rawRevisions == HistoryRaw(old(rawRevisions), path, revisions, sortKeys, split)
      ensures revObj == rawRevisions[path]
    {
      revObj := GetRevisionObject(path);
      if revisions.Some? {
        revObj := revObj.(allRevisions := revisions);
      }
      revObj := GenerateCompactRevisions(revObj, sortKeys, split);
      rawRevisions := rawRevisions[path := revObj];
    }

    /** The `revisionSaved` listener: the first offline entry that applies on
        the saved revision is submitted. */
    method OnRevisionSaved(ts: int)
      requires Valid()
      modifies this`rawRevisions, this`sent
      ensures Valid()
      ensures rawRevisions == ReplayedRaw(old(rawRevisions), offlineQueue, ts)
      ensures sent == old(sent) + ReplayedCmds(old(rawRevisions), offlineQueue, ts)
    {
      var i := FindApplyingOn(offlineQueue, ts);
      if i.Some? {
        MakeNewRevision(offlineQueue[i.value]);
      }
    }

    /** `$makeNewRevision(rev)`: the entry goes to the worker with its path's
        revision set. */
    method MakeNewRevision(rev: NewRevisionData)
      requires Valid()
      modifies this`rawRevisions, this`sent
      ensures Valid()
      ensures rawRevisions == Created(old(rawRevisions), rev.path)
      ensures sent == old(sent) + [NewRevisionMsg(rev, Created(old(rawRevisions), rev.path)[rev.path].allRevisions)]
    {
      var revObj := GetRevisionObject(rev.path);
      sent := sent + [NewRevisionMsg(rev, revObj.allRevisions)];
    }

    /** The `confirmSave` message. For a revision in the queue: it is marked
        saved and stored under its timestamp (creating the revision set when
        there is none), that queue entry alone goes, the compact view is
        rebuilt and the offline entry applying on it, if any, is submitted.
        For an unknown timestamp: one history request for the path is sent
        and no revision set changes. */
    method OnConfirmSave(path: Path, ts: int, guidedTour: bool,
                         sortKeys: set<int> -> seq<int>, split: seq<int> -> seq<seq<int>>)
      requires Valid() && SortsKeys(sortKeys) && SplitsIntoChunks(split)
      modifies this`rawRevisions, this`revisionQueue, this`sent
      ensures Valid()
      ensures guidedTour ==>
        rawRevisions == Created(old(rawRevisions), path) && revisionQueue == old(revisionQueue) && sent == old(sent)
      ensures !guidedTour && ts !in old(revisionQueue) ==>
        && rawRevisions == Created(old(rawRevisions), path)
        && (forall p :: AllOf(rawRevisions, p) == AllOf(old(rawRevisions), p))
        && revisionQueue == old(revisionQueue)
        && sent == old(sent) + [GetRevisionHistoryCmd(path, ts)]
      ensures !guidedTour && ts in old(revisionQueue) ==>
        var rev := old(revisionQueue)[ts].revision;
        var saved := rev.(info := rev.info.(saved := true));
        var raw1 := Created(old(rawRevisions), path);
        var raw2 := raw1[path := ConfirmedObj(raw1[path], ts, saved, sortKeys, split)];
        && revisionQueue == old(revisionQueue) - {ts}
        && rawRevisions == ReplayedRaw(raw2, offlineQueue, ts)
        && sent == old(sent) + ReplayedCmds(raw2, offlineQueue, ts)
        && path in rawRevisions
        && rawRevisions[path].allRevisions == Some(AllOf(old(rawRevisions), path)[ts := saved])
    {
      var revObj := GetRevisionObject(path);
      if guidedTour {
        return;
      }
      if ts !in revisionQueue {
        forall p ensures AllOf(rawRevisions, p) == AllOf(old(rawRevisions), p) {
          CreatedKeepsRevisions(old(rawRevisions), path, p);
        }
        sent := sent + [GetRevisionHistoryCmd(path, ts)];
        return;
      }
      ConfirmQueued(path, ts, sortKeys, split);
      ghost var raw2 := rawRevisions;
      OnRevisionSaved(ts);
      ReplayedKeepsRevisions(raw2, offlineQueue, ts, path);
    }

    /** The queued revision of `ts` is marked saved, moves from the queue
        into the path's revision set, and the compact view is rebuilt. */
    method ConfirmQueued(path: Path, ts: int, sortKeys: set<int> -> seq<int>, split: seq<int> -> seq<seq<int>>)
      requires Valid() && SortsKeys(sortKeys) && SplitsIntoChunks(split)
      requires ts in revisionQueue && path in rawRevisions
      modifies this`rawRevisions, this`revisionQueue
      ensures Valid()
      ensures var rev := old(revisionQueue)[ts].revision;
        var saved := rev.(info := rev.info.(saved := true));
        rawRevisions == old(rawRevisions)[path := ConfirmedObj(old(rawRevisions)[path], ts, saved, sortKeys, split)]
      ensures revisionQueue == old(revisionQueue) - {ts}
    {
      var revObj := rawRevisions[path];
      var revision := revisionQueue[ts].revision;
      revision := revision.(info := revision.info.(saved := true));
      var all := if revObj.allRevisions.Some? then revObj.allRevisions.value else map[];
      revObj := revObj.(allRevisions := Some(all[ts := revision]));
      revisionQueue := revisionQueue - {ts};
      revObj := GenerateCompactRevisions(revObj, sortKeys, split);
      rawRevisions := rawRevisions[path := revObj];
    }

    /** The `getRealFileContents` reply: every open tab showing the path
        sends the worker its content and the server's for a recovery
        judgment. */
    method OnRealFileContents(path: Path, contents: string, nextAction: string, tabs: seq<Tab>,
                              strip: Path -> Path, guidedTour: bool)
      requires Valid()
      modifies this`rawRevisions, this`sent
      ensures Valid()
      ensures rawRevisions == Created(old(rawRevisions), path)
      ensures guidedTour ==> sent == old(sent)
      ensures !guidedTour ==> sent == old(sent) + RecoveryRequests(tabs, strip, path, contents, nextAction == "storeAsRevision")
    {
      var _ := GetRevisionObject(path);
      if guidedTour {
        return;
      }
      PostRecoveryRequests(path, contents, nextAction == "storeAsRevision", tabs, strip);
    }

    /** The tab loop of the `getRealFileContents` reply. */
    method PostRecoveryRequests(path: Path, contents: string, store: bool, tabs: seq<Tab>, strip: Path -> Path)
      modifies this`sent
      ensures sent == old(sent) + RecoveryRequests(tabs, strip, path, contents, store)
    {
      var i := 0;
      while i < |tabs|
        invariant 0 <= i <= |tabs|
        invariant sent == old(sent) + RecoveryRequests(tabs[..i], strip, path, contents, store)
      {
        RecoveryRequestsSnoc(tabs, i, strip, path, contents, store);
        if strip(tabs[i].path) == path {
          sent := sent + [RecoveryMsg(tabs[i].value, contents, path, store)];
        }
        i := i + 1;
      }
      assert tabs[..|tabs|] == tabs;
    }

    // -------------------------------------------------------------------
    // Going back online

    /** The `forEach` of `onAfterOnline`: every entry after the first
        applies on the timestamp of the one before it. */
    method ChainQueue()
      modifies this`offlineQueue
      ensures offlineQueue == Chained(old(offlineQueue))
    {
      offlineQueue := ChainEntries(offlineQueue);
    }

    /** `onAfterOnline` as written: the queue is chained, its head submitted,
        and the whole queue emptied. */
    method OnAfterOnline()
      requires Valid()
      modifies this`offlineQueue, this`rawRevisions, this`sent
      ensures Valid()
      ensures old(offlineQueue) == [] ==>
        offlineQueue == [] && rawRevisions == old(rawRevisions) && sent == old(sent)
      ensures old(offlineQueue) != [] ==>
        var head := ReplayAsWritten(old(offlineQueue)).0;
        && head == old(offlineQueue)[0]
        && offlineQueue == ReplayAsWritten(old(offlineQueue)).1
        && rawRevisions == Created(old(rawRevisions), head.path)
        && sent == old(sent) + [NewRevisionMsg(head, Created(old(rawRevisions), head.path)[head.path].allRevisions)]
    {
      if |offlineQueue| == 0 {
        return;
      }
      ChainQueue();
      var head := offlineQueue[0];
      offlineQueue := offlineQueue[1..];
      MakeNewRevision(head);
      offlineQueue := [];
    }

    /** `onAfterOnline` as evidently intended: the chained queue keeps every
        entry after the submitted head, so that each confirmation releases
        the next one. */
    method OnAfterOnlineKeepingTail()
      requires Valid()
      modifies this`offlineQueue, this`rawRevisions, this`sent
      ensures Valid()
      ensures old(offlineQueue) == [] ==>
        offlineQueue == [] && rawRevisions == old(rawRevisions) && sent == old(sent)
      ensures old(offlineQueue) != [] ==>
        var head := Replay(old(offlineQueue)).0;
        && offlineQueue == Replay(old(offlineQueue)).1
        && rawRevisions == Created(old(rawRevisions), head.path)
        && sent == old(sent) + [NewRevisionMsg(head, Created(old(rawRevisions), head.path)[head.path].allRevisions)]
      ensures DistinctStamps(old(offlineQueue)) ==>
        forall k :: 0 <= k < |offlineQueue| ==> FirstApplyingOn(offlineQueue, old(offlineQueue)[k].ts.value) == Some(k)
    {
      if |offlineQueue| == 0 {
        return;
      }
      ChainQueue();
      var head := offlineQueue[0];
      offlineQueue := offlineQueue[1..];
      MakeNewRevision(head);
      forall k | 0 <= k < |offlineQueue| && DistinctStamps(old(offlineQueue))
        ensures FirstApplyingOn(offlineQueue, old(offlineQueue)[k].ts.value) == Some(k)
      {
        ChainedTailReleasesSuccessor(old(offlineQueue), k);
      }
    }

    // -------------------------------------------------------------------
    // Files changed on disk

    /** `onExternalChange`: autosave is recorded and switched off, the path
        waits for a decision, and (single user, no question showing) the
        server's content is requested. */
    method OnExternalChange(rawPath: Path, strip: Path -> Path, questionVisible: bool, isCollab: bool)
      modifies this`prevAutoSaveValue, this`autoSaveSetting, this`changedPaths, this`sent
      ensures prevAutoSaveValue == old(isAutoSaveEnabled) && !autoSaveSetting
      ensures changedPaths == old(changedPaths) + [strip(rawPath)]
      ensures sent == old(sent) + if !questionVisible && !isCollab then [GetRealFileContentsCmd(strip(rawPath), false)] else []
    {
      prevAutoSaveValue := isAutoSaveEnabled;
      autoSaveSetting := false;
      var path := strip(rawPath);
      changedPaths := changedPaths + [path];
      if !questionVisible && !isCollab {
        sent := sent + [GetRealFileContentsCmd(path, false)];
      }
    }

    /** `finalize` as written: the changed paths are cleared and autosave is
        switched on whatever it was before. */
    method Finalize()
      modifies this`changedPaths, this`autoSaveSetting
      ensures changedPaths == [] && autoSaveSetting
    {
      changedPaths := [];
      autoSaveSetting := FinalizedAutoSaveAsWritten(None);
    }

    /** `finalize` as evidently intended: autosave goes back to what it was
        when the external change arrived. */
    method FinalizeRestoring()
      modifies this`changedPaths, this`autoSaveSetting
      ensures changedPaths == [] && autoSaveSetting == prevAutoSaveValue
    {
      changedPaths := [];
      autoSaveSetting := prevAutoSaveValue;
    }

    /** The two answers of the question window, then `finalize` as written.
        Reload: the changed tabs are returned for reloading (the reload and
        its save are the editor's). Keep: each changed tab asks the server
        for its content to store as a revision. Either way autosave ends up
        on. */
    method AnswerQuestion(reload: bool, tabs: seq<Path>, strip: Path -> Path) returns (reloaded: seq<Path>)
      modifies this`changedPaths, this`autoSaveSetting, this`sent
      ensures changedPaths == [] && autoSaveSetting
      ensures reload ==> reloaded == ChangedTabs(tabs, strip, old(changedPaths)) && sent == old(sent)
      ensures !reload ==> reloaded == [] && sent == old(sent) + KeepRequests(ChangedTabs(tabs, strip, old(changedPaths)))
    {
      reloaded := VisitChangedTabs(reload, tabs, strip);
      Finalize();
    }

    /** The answers of the question window ending in the intended
        `finalize`, which restores the autosave state recorded when the
        external change arrived. */
    method AnswerQuestionRestoring(reload: bool, tabs: seq<Path>, strip: Path -> Path) returns (reloaded: seq<Path>)
      modifies this`changedPaths, this`autoSaveSetting, this`sent
      ensures changedPaths == [] && autoSaveSetting == prevAutoSaveValue
      ensures reload ==> reloaded == ChangedTabs(tabs, strip, old(changedPaths)) && sent == old(sent)
      ensures !reload ==> reloaded == [] && sent == old(sent) + KeepRequests(ChangedTabs(tabs, strip, old(changedPaths)))
    {
      reloaded := VisitChangedTabs(reload, tabs, strip);
      FinalizeRestoring();
    }

    /** A file changes on disk and the question window is answered, as
        written: autosave ends up on even when it was off before the change,
        although the value recorded for it says it was off. */
    method ExternalChangeAnswered(rawPath: Path, strip: Path -> Path, questionVisible: bool, isCollab: bool,
                                  reload: bool, tabs: seq<Path>) returns (reloaded: seq<Path>)
      modifies this`prevAutoSaveValue, this`autoSaveSetting, this`changedPaths, this`sent
      ensures prevAutoSaveValue == old(isAutoSaveEnabled) && changedPaths == []
      ensures autoSaveSetting
      ensures !old(isAutoSaveEnabled) ==> autoSaveSetting != prevAutoSaveValue
    {
      OnExternalChange(rawPath, strip, questionVisible, isCollab);
      reloaded := AnswerQuestion(reload, tabs, strip);
    }

    /** The same sequence with the intended `finalize`: autosave is back to
        what it was before the file changed. */
    method ExternalChangeAnsweredRestoring(rawPath: Path, strip: Path -> Path, questionVisible: bool, isCollab: bool,
                                           reload: bool, tabs: seq<Path>) returns (reloaded: seq<Path>)
      modifies this`prevAutoSaveValue, this`autoSaveSetting, this`changedPaths, this`sent
      ensures prevAutoSaveValue == old(isAutoSaveEnabled) && changedPaths == []
      ensures autoSaveSetting == old(isAutoSaveEnabled)
    {
      OnExternalChange(rawPath, strip, questionVisible, isCollab);
      reloaded := AnswerQuestionRestoring(reload, tabs, strip);
    }

    /** The tab loops of `reloadAndSave` and `dontReloadAndStore`. */
    method VisitChangedTabs(reload: bool, tabs: seq<Path>, strip: Path -> Path) returns (reloaded: seq<Path>)
      modifies this`sent
      ensures reload ==> reloaded == ChangedTabs(tabs, strip, changedPaths) && sent == old(sent)
      ensures !reload ==> reloaded == [] && sent == old(sent) + KeepRequests(ChangedTabs(tabs, strip, changedPaths))
    {
      reloaded := [];
      var i := 0;
      while i < |tabs|
        invariant 0 <= i <= |tabs|
        invariant reload ==> reloaded == ChangedTabs(tabs[..i], strip, changedPaths) && sent == old(sent)
        invariant !reload ==> reloaded == [] && sent == old(sent) + KeepRequests(ChangedTabs(tabs[..i], strip, changedPaths))
      {
        ChangedTabsSnoc(tabs, i, strip, changedPaths);
        var path := strip(tabs[i]);
        if path in changedPaths {
          if reload {
            reloaded := reloaded + [path];
          } else {
            sent := sent + [GetRealFileContentsCmd(path, true)];
          }
        }
        i := i + 1;
      }
      assert tabs[..|tabs|] == tabs;
    }
  }

}
