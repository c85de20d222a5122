/** The offline queue: revisions saved while the IDE was offline, each with
    the local timestamp it was given. On reconnect every entry is chained to
    the one before it (`applyOn`), and a confirmed save releases the entry
    that applies on it. */
module Offline {
  import opened Wrappers
  import opened RevisionModel

  /** The `filter` of `onRevisionSaved` followed by `matches[0]`: the first
      entry whose `applyOn` is the saved timestamp. */
  function FirstApplyingOn(q: seq<NewRevisionData>, ts: int): (r: Option<nat>)
    ensures r.Some? ==> r.value < |q| && q[r.value].applyOn == Some(ts)
    ensures r.Some? ==> forall j :: 0 <= j < r.value ==> q[j].applyOn != Some(ts)
    ensures r.None? ==> forall j :: 0 <= j < |q| ==> q[j].applyOn != Some(ts)
  {
    if q == [] then None
    else if q[0].applyOn == Some(ts) then Some(0)
    else match FirstApplyingOn(q[1..], ts) {
      case None => None
      case Some(i) => Some(i + 1)
    }
  }

  /** The search of `onRevisionSaved`. */
  method FindApplyingOn(q: seq<NewRevisionData>, ts: int) returns (r: Option<nat>)
    ensures r == FirstApplyingOn(q, ts)
  {
    var i := 0;
    while i < |q|
      invariant 0 <= i <= |q|
      invariant forall j :: 0 <= j < i ==> q[j].applyOn != Some(ts)
    {
      if q[i].applyOn == Some(ts) {
        FirstApplyingOnIs(q, ts, i);
        return Some(i);
      }
      i := i + 1;
    }
    return None;
  }

  /** The queue after the `forEach` of `onAfterOnline`: every entry but the
      first applies on the timestamp of the entry before it. */
  function Chained(q: seq<NewRevisionData>): (r: seq<NewRevisionData>)
    ensures |r| == |q|
  {
    seq(|q|, k requires 0 <= k < |q| => ChainedAt(q, k))
  }

  /** Entry `k` of the chained queue. */
  function ChainedAt(q: seq<NewRevisionData>, k: nat): NewRevisionData
    requires k < |q|
  {
    if k == 0 then q[0] else q[k].(applyOn := q[k - 1].ts)
  }

  /** Chaining touches only `applyOn`, leaves the head as it is, and links
      each later entry to its predecessor's timestamp. */
  lemma ChainedLinks(q: seq<NewRevisionData>, k: nat)
    requires k < |q|
    ensures Chained(q)[k].(applyOn := q[k].applyOn) == q[k]
    ensures k == 0 ==> Chained(q)[k] == q[k]
    ensures k > 0 ==> Chained(q)[k].applyOn == q[k - 1].ts
  {
  }

  /** The `forEach` of `onAfterOnline` that sets each entry's `applyOn`
      to the timestamp of the entry before it. */
  method ChainEntries(q0: seq<NewRevisionData>) returns (q: seq<NewRevisionData>)
    ensures q == Chained(q0)
  {
    q := q0;
    var ind := 0;
    while ind < |q|
      invariant 0 <= ind <= |q| == |q0|
      invariant forall k :: 0 <= k < ind ==> q[k] == ChainedAt(q0, k)
      invariant forall k :: ind <= k < |q| ==> q[k] == q0[k]
    {
      if ind > 0 {
        q := q[ind := q[ind].(applyOn := q[ind - 1].ts)];
      }
      ind := ind + 1;
    }
    ChainedIs(q0, q);
  }

  /** A queue that holds, at every position, the chained entry is the
      chained queue. */
  lemma ChainedIs(q0: seq<NewRevisionData>, q: seq<NewRevisionData>)
    requires |q| == |q0| && forall k :: 0 <= k < |q| ==> q[k] == ChainedAt(q0, k)
    ensures q == Chained(q0)
  {
  }

  /** Offline entries carry their own, pairwise different timestamps. */
  predicate DistinctStamps(q: seq<NewRevisionData>)
  {
    && (forall k :: 0 <= k < |q| ==> q[k].ts.Some?)
    && (forall i, j :: 0 <= i < j < |q| ==> q[i].ts != q[j].ts)
  }

  /** The first matching entry is the one `FirstApplyingOn` picks. */
  lemma {:induction false} FirstApplyingOnIs(q: seq<NewRevisionData>, ts: int, i: nat)
    requires i < |q| && q[i].applyOn == Some(ts)
    requires forall j :: 0 <= j < i ==> q[j].applyOn != Some(ts)
    ensures FirstApplyingOn(q, ts) == Some(i)
    decreases i
  {
    if i > 0 {
      FirstApplyingOnIs(q[1..], ts, i - 1);
    }
  }

  lemma ChainedTailAt(q: seq<NewRevisionData>, j: nat)
    requires j + 1 < |q|
    ensures Chained(q)[1..][j] == q[j + 1].(applyOn := q[j].ts)
  {
  }

  /** When the chained queue, minus its submitted head, is kept, the save
      confirmation of entry k releases exactly entry k + 1: replay goes
      through the queue in order, one entry per confirmation. */
  lemma ChainedTailReleasesSuccessor(q: seq<NewRevisionData>, k: nat)
    requires DistinctStamps(q) && k + 1 < |q|
    ensures FirstApplyingOn(Chained(q)[1..], q[k].ts.value) == Some(k)
    ensures Chained(q)[1..][k] == q[k + 1].(applyOn := q[k].ts)
  {
    var tail := Chained(q)[1..];
    var t := q[k].ts.value;
    ChainedTailAt(q, k);
    forall j | 0 <= j < k ensures tail[j].applyOn != Some(t) {
      ChainedTailAt(q, j);
      assert q[j].ts != q[k].ts;
    }
    FirstApplyingOnIs(tail, t, k);
  }

  /** The replay that `onAfterOnline` starts, as the source has it: the head
      is submitted as it was queued, and no later confirmation releases
      anything, whatever timestamp it carries. */
  function ReplayAsWritten(q: seq<NewRevisionData>): (r: (NewRevisionData, seq<NewRevisionData>))
    requires |q| > 0
    ensures r.0 == q[0]
    ensures forall ts :: FirstApplyingOn(r.1, ts).None?
  {
    (Chained(q)[0], [])
  }

  /** The replay as evidently intended: the head is submitted and the rest
      of the chained queue stays, waiting for the head's confirmation. */
  function Replay(q: seq<NewRevisionData>): (r: (NewRevisionData, seq<NewRevisionData>))
    requires |q| > 0
    ensures r.0 == q[0] && |r.1| == |q| - 1
    ensures forall k :: 0 <= k < |r.1| ==> r.1[k] == q[k + 1].(applyOn := q[k].ts)
  {
    (Chained(q)[0], Chained(q)[1..])
  }

  /** Two offline saves, at 100 and 200: the replay as written keeps no entry
      for the confirmation of the first to release, so the second is never
      submitted; the intended replay releases it. */
  lemma SecondOfflineSaveIsLost()
    ensures var e1 := NewRevisionData("a.txt", false, None, [], "one", Some(100), None);
      var e2 := NewRevisionData("a.txt", false, None, [], "two", Some(200), None);
      && FirstApplyingOn(ReplayAsWritten([e1, e2]).1, 100).None?
      && FirstApplyingOn(Replay([e1, e2]).1, 100) == Some(0)
      && Replay([e1, e2]).1[0] == e2.(applyOn := Some(100))
  {
    var e1 := NewRevisionData("a.txt", false, None, [], "one", Some(100), None);
    var e2 := NewRevisionData("a.txt", false, None, [], "two", Some(200), None);
    ChainedTailReleasesSuccessor([e1, e2], 0);
  }

}
