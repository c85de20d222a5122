/** The lookups behind a history request: `getRevision(id)` (the position
    of an id among the sorted timestamps and the first patch element of
    every revision) and the expansion of an id to its compaction group
    when the compact view is on. */
module History {
  import opened Wrappers
  import opened RevisionModel
  import opened Compaction

  /** `patch[0]`: undefined for an empty patch array. */
  function FirstPatch(patch: seq<string>): Option<string>
  {
    if |patch| > 0 then Some(patch[0]) else None
  }

  /** `ts.indexOf(id)`: the first position of `id`, or -1. */
  function IndexIn(ts: seq<int>, id: int): (k: int)
    ensures -1 <= k < |ts|
    ensures k == -1 <==> id !in ts
    ensures k >= 0 ==> ts[k] == id && forall j :: 0 <= j < k ==> ts[j] != id
  {
    if ts == [] then -1
    else if ts[0] == id then 0
    else
      var k := IndexIn(ts[1..], id);
      if k == -1 then -1 else k + 1
  }

  /** `data.patchesByTS`: every listed timestamp mapped to the first
      element of its revision's patch. */
  function PatchesByTS(all: map<int, Revision>, ts: seq<int>): map<int, Option<string>>
    requires forall t :: t in ts ==> t in all
  {
    map t | t in ts :: FirstPatch(all[t].patch)
  }

  /** What `getRevision(id)` returns, given the revisions of the current
      document and their sorted timestamps: nothing for an unknown id, and
      otherwise the id, its position and the first patch element of every
      revision. */
  function RevisionLookupOf(all: map<int, Revision>, ts: seq<int>, id: int): (r: Option<RevisionLookup>)
    requires forall t :: t in ts ==> t in all
    ensures r.Some? <==> id in ts
    ensures r.Some? ==> r.value.id == id && 0 <= r.value.index < |ts| && ts[r.value.index] == id
    ensures r.Some? ==> forall t :: t in r.value.patchesByTS <==> t in ts
  {
    var k := IndexIn(ts, id);
    if k == -1 then None else Some(RevisionLookup(id, k, PatchesByTS(all, ts)))
  }

  /** With the timestamps sorted, the position `getRevision` reports is the
      number of revisions older than the id, and every revision's first
      patch element is listed. */
  lemma LookupPosition(all: map<int, Revision>, ts: seq<int>, id: int)
    requires IsSortedKeyList(ts, all.Keys) && id in all
    ensures RevisionLookupOf(all, ts, id).Some?
    ensures var r := RevisionLookupOf(all, ts, id).value;
      && r.index == |set t | t in all && t < id|
      && (forall t :: t in all ==> t in r.patchesByTS && r.patchesByTS[t] == FirstPatch(all[t].patch))
  {
    var r := RevisionLookupOf(all, ts, id).value;
    OlderArePrefix(all, ts, r.index);
    DistinctImageSize(ts, r.index);
  }

  /** The revisions older than the one at position `n` are those before it. */
  lemma OlderArePrefix(all: map<int, Revision>, ts: seq<int>, n: nat)
    requires IsSortedKeyList(ts, all.Keys) && n < |ts|
    ensures (set t | t in all && t < ts[n]) == set j | 0 <= j < n :: ts[j]
  {
    forall t | t in all && t < ts[n] ensures t in set j | 0 <= j < n :: ts[j] {
      var j :| 0 <= j < |ts| && ts[j] == t;
      assert j < n;
    }
  }

  /** The first `n` elements of a strictly sorted sequence form a set of
      `n` elements. */
  lemma {:induction false} DistinctImageSize(ts: seq<int>, n: nat)
    requires StrictlySorted(ts) && n <= |ts|
    ensures |set j | 0 <= j < n :: ts[j]| == n
    decreases n
  {
    if n > 0 {
      DistinctImageSize(ts, n - 1);
      var a := set j | 0 <= j < n - 1 :: ts[j];
      assert (set j | 0 <= j < n :: ts[j]) == a + {ts[n - 1]};
      assert ts[n - 1] !in a;
    }
  }

  /** `patchesByTS` after the first `n` turns of the loop. */
  function PatchesUpTo(all: map<int, Revision>, ts: seq<int>, n: nat): map<int, Option<string>>
    requires n <= |ts| && forall t :: t in ts ==> t in all
  {
    if n == 0 then map[]
    else
      assert ts[n - 1] in ts;
      PatchesUpTo(all, ts, n - 1)[ts[n - 1] := FirstPatch(all[ts[n - 1]].patch)]
  }

  /** The loop's map lists the first patch element of each timestamp seen. */
  lemma {:induction false} PatchesUpToIs(all: map<int, Revision>, ts: seq<int>, n: nat)
    requires n <= |ts| && forall t :: t in ts ==> t in all
    ensures PatchesUpTo(all, ts, n) == map x | x in ts[..n] :: FirstPatch(all[x].patch)
    decreases n
  {
    if n > 0 {
      PatchesUpToIs(all, ts, n - 1);
      assert ts[..n] == ts[..n - 1] + [ts[n - 1]];
    }
  }

  /** The `for (t …)` loop of `getRevision`, with the `indexOf` test before
      it. */
  method LookupRevision(all: map<int, Revision>, ts: seq<int>, id: int) returns (r: Option<RevisionLookup>)
    requires forall t :: t in ts ==> t in all
    ensures r == RevisionLookupOf(all, ts, id)
  {
    var index := IndexIn(ts, id);
    if index == -1 {
      return None;
    }
    var patchesByTS: map<int, Option<string>> := map[];
    var t := 0;
    while t < |ts|
      invariant 0 <= t <= |ts|
      invariant patchesByTS == PatchesUpTo(all, ts, t)
    {
      var x := ts[t];
      assert x in ts;
      patchesByTS := patchesByTS[x := FirstPatch(all[x].patch)];
      t := t + 1;
    }
    PatchesUpToIs(all, ts, |ts|);
    assert ts[..|ts|] == ts;
    r := Some(RevisionLookup(id, index, patchesByTS));
  }

  // ---------------------------------------------------------------------
  // Expanding an id to its group

  /** The first group that contains `id`. */
  function FirstGroupWith(gs: seq<seq<int>>, id: int): (k: Option<nat>)
    ensures k.Some? ==> k.value < |gs| && id in gs[k.value] && forall j :: 0 <= j < k.value ==> id !in gs[j]
    ensures k.None? ==> forall j :: 0 <= j < |gs| ==> id !in gs[j]
  {
    if gs == [] then None
    else if id in gs[0] then Some(0)
    else match FirstGroupWith(gs[1..], id) {
      case None => None
      case Some(k) => Some(k + 1)
    }
  }

  /** The `for (var i …)` search of the history request, with its `break`. */
  method FindGroupWith(gs: seq<seq<int>>, id: int) returns (k: Option<nat>)
    ensures k == FirstGroupWith(gs, id)
  {
    var i := 0;
    while i < |gs|
      invariant 0 <= i <= |gs|
      invariant forall j :: 0 <= j < i ==> id !in gs[j]
    {
      if id in gs[i] {
        return Some(i);
      }
      i := i + 1;
    }
    return None;
  }

  function Members(g: seq<int>): set<int>
  {
    set t | t in g
  }

  /** The ids whose revisions the worker request carries: the whole group
      of `id` when the compact view is on and that group has more than one
      distinct member, and otherwise `id` alone. */
  function HistoryGroupIds(o: RevObj, id: int): (ids: set<int>)
    ensures id in ids
  {
    var gs := o.groupedRevisionIds;
    if o.useCompactList && |gs| > 0 then
      match FirstGroupWith(gs, id) {
        case Some(k) => if |Members(gs[k])| > 1 then Members(gs[k]) else {id}
        case None => {id}
      }
    else {id}
  }

  // ---------------------------------------------------------------------
  // Positions in the flattened grouping

  function Offset(gs: seq<seq<int>>, k: nat): nat
    requires k <= |gs|
  {
    |Flatten(gs[..k])|
  }

  lemma FlattenAt(gs: seq<seq<int>>, k: nat, j: nat)
    requires k < |gs| && j < |gs[k]|
    ensures Offset(gs, k) + j < |Flatten(gs)| && Flatten(gs)[Offset(gs, k) + j] == gs[k][j]
    ensures Offset(gs, k) + |gs[k]| == Offset(gs, k + 1)
  {
    OffsetNext(gs, k);
    FlattenSplit(gs, k + 1);
    var f := Flatten(gs[..k + 1]);
    assert Flatten(gs)[Offset(gs, k) + j] == f[Offset(gs, k) + j];
  }

  /** The group at `k` follows the groups before it. */
  lemma OffsetNext(gs: seq<seq<int>>, k: nat)
    requires k < |gs|
    ensures Flatten(gs[..k + 1]) == Flatten(gs[..k]) + gs[k]
  {
    assert gs[..k + 1] == gs[..k] + [gs[k]];
    FlattenSnoc(gs[..k], gs[k]);
  }

  lemma FlattenSplit(gs: seq<seq<int>>, n: nat)
    requires n <= |gs|
    ensures Flatten(gs) == Flatten(gs[..n]) + Flatten(gs[n..])
  {
    assert gs == gs[..n] + gs[n..];
    FlattenAppend(gs[..n], gs[n..]);
  }

  lemma {:induction false} OffsetMonotone(gs: seq<seq<int>>, k: nat, k': nat)
    requires k <= k' <= |gs|
    ensures Offset(gs, k) <= Offset(gs, k')
    decreases k' - k
  {
    if k < k' {
      OffsetMonotone(gs, k, k' - 1);
      assert gs[..k'][..k' - 1] == gs[..k' - 1];
    }
  }

  /** In a grouping, ids increase along the groups: an id of an earlier
      group, or an earlier id of the same group, is smaller. */
  lemma GroupingOrder(gs: seq<seq<int>>, all: map<int, Revision>, k: nat, j: nat, k': nat, j': nat)
    requires IsGrouping(gs, all)
    requires k < |gs| && j < |gs[k]| && k' < |gs| && j' < |gs[k']|
    requires k < k' || (k == k' && j < j')
    ensures gs[k][j] < gs[k'][j']
  {
    FlattenAt(gs, k, j);
    FlattenAt(gs, k', j');
    if k < k' {
      OffsetMonotone(gs, k + 1, k');
    }
  }

  /** When the revision object's groups partition its revisions (as they
      do after every regeneration), a history request in compact view for
      an id that lies in a group of more than one member carries exactly
      that group's members, and only the id itself otherwise. */
  lemma HistoryGroupOfGrouping(o: RevObj, all: map<int, Revision>, id: int, k: nat)
    requires IsGrouping(o.groupedRevisionIds, all)
    requires k < |o.groupedRevisionIds| && id in o.groupedRevisionIds[k]
    ensures o.useCompactList && |o.groupedRevisionIds[k]| > 1 ==> HistoryGroupIds(o, id) == Members(o.groupedRevisionIds[k])
    ensures !o.useCompactList || |o.groupedRevisionIds[k]| == 1 ==> HistoryGroupIds(o, id) == {id}
  {
    var gs := o.groupedRevisionIds;
    var f := FirstGroupWith(gs, id);
    assert f == Some(k) by {
      var j :| 0 <= j < |gs[k]| && gs[k][j] == id;
      if f.value < k {
        var j' :| 0 <= j' < |gs[f.value]| && gs[f.value][j'] == id;
        GroupingOrder(gs, all, f.value, j', k, j);
      }
    }
    if |gs[k]| > 1 {
      GroupingOrder(gs, all, k, 0, k, 1);
      assert {gs[k][0], gs[k][1]} <= Members(gs[k]);
      assert |{gs[k][0], gs[k][1]}| == 2;
      SubsetSize({gs[k][0], gs[k][1]}, Members(gs[k]));
    } else {
      assert Members(gs[k]) == {gs[k][0]};
    }
  }

  lemma SubsetSize(a: set<int>, b: set<int>)
    requires a <= b
    ensures |a| <= |b|
  {
    assert b == a + (b - a);
  }

}
