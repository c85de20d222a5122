/** The records the revisions plugin keeps and exchanges: revisions as the
    server stores them, the compacted group records built for the history
    list, the per-path revision object, the entries of the pending and
    offline queues, and every outgoing message (to the server through
    `ide.send` and to the diff worker through `worker.postMessage`) as one
    `Command` type. */
module RevisionModel {
  import opened Wrappers

  type Path = string

  /** The fields of a revision other than its patch: these are what a
      compact record copies from the last revision of its group. */
  datatype Info = Info(
    ts: int,
    silentsave: bool,
    /** The id of the revision this one restores; JavaScript treats a
        missing value and 0 alike as "not restoring". */
    restoring: Option<int>,
    saved: bool,
    contributors: seq<string>)

  /** One revision of `allRevisions`. `patch` is the diff array whose first
      element the worker checks for emptiness. */
  datatype Revision = Revision(info: Info, patch: seq<string>)

  /** One entry of `compactRevisions`: the last member's fields with the
      union of contributors, the id of the first member, and every member's
      patch array in group order. */
  datatype CompactRevision = CompactRevision(info: Info, first: int, patch: seq<seq<string>>)

  /** `revObj.restoring` is truthy. */
  predicate IsRestoringInfo(i: Info)
  {
    i.restoring.Some? && i.restoring.value != 0
  }

  /** `isRestoring(id)` of `generateCompactRevisions`: `all[id] && all[id].restoring`. */
  predicate IsRestoring(all: map<int, Revision>, id: int)
  {
    id in all && IsRestoringInfo(all[id].info)
  }

  /** The per-path object `$getRevisionObject` creates lazily. The preview
      cache holds rendered editor sessions; the model keeps only the set of
      ids that have one. `hasBeenSentToWorker` is compared with `=== true`,
      so a missing flag is `false` here. */
  datatype RevObj = RevObj(
    useCompactList: bool,
    groupedRevisionIds: seq<seq<int>>,
    previewCache: set<int>,
    allRevisions: Option<map<int, Revision>>,
    compactRevisions: Option<map<int, CompactRevision>>,
    hasBeenSentToWorker: bool,
    usersChanged: Option<seq<string>>)

  /** The object `$getRevisionObject` creates for a path it has not seen. */
  function NewRevObj(): RevObj
  {
    RevObj(true, [], {}, None, None, false, None)
  }

  /** An entry of `revisionQueue`: a revision sent to the server and not yet
      confirmed. */
  datatype QueueEntry = QueueEntry(path: Path, revision: Revision)

  /** The `data` object `saveRevision` builds (type "newRevision"). Offline
      it gets a local `ts` and waits in `offlineQueue`; `applyOn` is set
      when the queue is replayed. */
  datatype NewRevisionData = NewRevisionData(
    path: Path,
    silentsave: bool,
    restoring: Option<int>,
    contributors: seq<string>,
    lastContent: string,
    ts: Option<int>,
    applyOn: Option<int>)

  /** What `getRevision(id)` returns: the id, its position in the sorted
      timestamps, and the first patch element of every revision. */
  datatype RevisionLookup = RevisionLookup(id: int, index: int, patchesByTS: map<int, Option<string>>)

  /** Every outgoing message, to the server or to the diff worker. */
  datatype Command =
    /** ide.send saveRevision */
    | SaveRevisionCmd(path: Path, revision: Revision, forceRevisionListResponse: bool)
    /** ide.send getRevisionHistory with an id (the desync resync) */
    | GetRevisionHistoryCmd(path: Path, id: int)
    /** ide.send getRealFileContents, with nextAction "storeAsRevision" or none */
    | GetRealFileContentsCmd(path: Path, storeAsRevision: bool)
    /** ide.send moveRevision */
    | MoveRevisionCmd(path: Path, newPath: Path)
    /** ide.send removeRevision */
    | RemoveRevisionCmd(path: Path, isFolder: bool)
    /** worker "newRevision" carrying the revision set (`revisions`) */
    | NewRevisionMsg(data: NewRevisionData, revisions: Option<map<int, Revision>>)
    /** worker "newRevision" with `hasBeenSentToWorker: true` and no revision set */
    | NewRevisionShortMsg(path: Path, lastContent: string)
    /** worker request to rebuild content for a history entry */
    | HistoryMsg(id: int, group: map<int, Option<RevisionLookup>>, nextAction: string)
    /** worker "recovery" request for an externally changed file */
    | RecoveryMsg(lastContent: string, realContent: string, path: Path, storeAsRevision: bool)
    /** worker "closefile" */
    | CloseFileMsg(path: Path)

  function Flatten(gs: seq<seq<int>>): seq<int>
  {
    if gs == [] then [] else Flatten(gs[..|gs| - 1]) + gs[|gs| - 1]
  }

  lemma FlattenSnoc(init: seq<seq<int>>, g: seq<int>)
    ensures Flatten(init + [g]) == Flatten(init) + g
  {
    assert (init + [g])[..|init|] == init;
  }

  lemma {:induction false} FlattenAppend(a: seq<seq<int>>, b: seq<seq<int>>)
    ensures Flatten(a + b) == Flatten(a) + Flatten(b)
    decreases |b|
  {
    if b == [] {
      assert a + b == a;
    } else {
      var b' := b[..|b| - 1];
      assert (a + b)[..|a + b| - 1] == a + b';
      assert Flatten(a + b) == Flatten(a + b') + b[|b| - 1];
      FlattenAppend(a, b');
      assert Flatten(b) == Flatten(b') + b[|b| - 1];
    }
  }

  predicate StrictlySorted(s: seq<int>)
  {
    forall i, j :: 0 <= i < j < |s| ==> s[i] < s[j]
  }

  /** Past position `i` of a strictly sorted sequence come exactly the
      later elements other than the one at `i`. */
  lemma SortedTail(keys: seq<int>, i: nat)
    requires StrictlySorted(keys) && i < |keys|
    ensures forall ts :: ts in keys[i + 1..] <==> ts in keys[i..] && ts != keys[i]
  {
    assert keys[i..] == [keys[i]] + keys[i + 1..];
    var rest := keys[i + 1..];
    assert forall j :: 0 <= j < |rest| ==> rest[j] == keys[i + 1 + j];
  }

  /** What `Util.keysToSortedArray` is taken to return for a key set: the
      keys in strictly ascending order. */
  ghost predicate IsSortedKeyList(ts: seq<int>, keys: set<int>)
  {
    StrictlySorted(ts) && (forall x :: x in ts <==> x in keys)
  }

  /** What `Util.compactRevisions` is taken to return: consecutive
      non-empty chunks whose concatenation is its input. */
  predicate IsChunking(chunks: seq<seq<int>>, ts: seq<int>)
  {
    Flatten(chunks) == ts && forall c :: c in chunks ==> |c| > 0
  }

  ghost predicate SortsKeys(sortKeys: set<int> -> seq<int>)
  {
    forall ks :: IsSortedKeyList(sortKeys(ks), ks)
  }

  ghost predicate SplitsIntoChunks(split: seq<int> -> seq<seq<int>>)
  {
    forall ts :: IsChunking(split(ts), ts)
  }

  /** `allRevisions` of a path, with a missing object or a missing map read
      as no revisions (what `Util.keysToSortedArray` is taken to do with
      `undefined`). */
  function AllOf(raw: map<Path, RevObj>, path: Path): map<int, Revision>
  {
    if path in raw && raw[path].allRevisions.Some? then raw[path].allRevisions.value else map[]
  }

  /** The map after `$getRevisionObject(path)`. */
  function Created(raw: map<Path, RevObj>, path: Path): (r: map<Path, RevObj>)
    ensures path in r && r.Keys == raw.Keys + {path}
    ensures forall p :: p in raw ==> r[p] == raw[p]
  {
    if path in raw then raw else raw[path := NewRevObj()]
  }

  /** Creating a revision object never changes what any path's revisions are. */
  lemma CreatedKeepsRevisions(raw: map<Path, RevObj>, path: Path, p: Path)
    ensures AllOf(Created(raw, path), p) == AllOf(raw, p)
  {
  }

}
