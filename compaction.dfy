/** `generateCompactRevisions`: sorted timestamps, split by the time-lapse
    helper into chunks, are regrouped so that a restoring revision stands
    alone, and one compact record is built per group, keyed by the group's
    last timestamp. */
module Compaction {
  import opened Wrappers
  import opened RevisionModel

  function Last(g: seq<int>): int
    requires |g| > 0
  {
    g[|g| - 1]
  }

  // ---------------------------------------------------------------------
  // Grouping

  /** One call of the `repack(prev, id)` reducer: `id` joins the current
      (last) group when that group is empty, or when neither `id` nor the
      group's first id is restoring; otherwise it opens a group of its own. */
  function RepackStep(all: map<int, Revision>, prev: seq<seq<int>>, id: int): (r: seq<seq<int>>)
    requires |prev| > 0
    ensures |r| > 0
  {
    var last := prev[|prev| - 1];
    if |last| == 0 || (!IsRestoring(all, id) && !IsRestoring(all, last[0])) then
      prev[..|prev| - 1] + [last + [id]]
    else
      prev + [[id]]
  }

  /** `chunk.__reduce(repack, [[]])`: the reducer folded from the left. */
  function Repacked(all: map<int, Revision>, chunk: seq<int>): (r: seq<seq<int>>)
    ensures |r| > 0
  {
    if chunk == [] then [[]]
    else RepackStep(all, Repacked(all, chunk[..|chunk| - 1]), chunk[|chunk| - 1])
  }

  /** `finalTS`: the repacked groups of every chunk, in chunk order. */
  function Grouped(all: map<int, Revision>, chunks: seq<seq<int>>): seq<seq<int>>
  {
    if chunks == [] then []
    else Grouped(all, chunks[..|chunks| - 1]) + Repacked(all, chunks[|chunks| - 1])
  }

  ghost predicate NonEmptyGroups(gs: seq<seq<int>>)
  {
    forall k :: 0 <= k < |gs| ==> |gs[k]| > 0
  }

  /** A group holding a restoring revision holds nothing else. */
  ghost predicate RestoringAlone(all: map<int, Revision>, gs: seq<seq<int>>)
  {
    forall k, j :: 0 <= k < |gs| && 0 <= j < |gs[k]| && IsRestoring(all, gs[k][j]) ==> |gs[k]| == 1
  }

  /** Two neighbouring groups are separate only because one of them starts
      with a restoring revision. */
  ghost predicate SplitOnlyAtRestoring(all: map<int, Revision>, gs: seq<seq<int>>)
    requires NonEmptyGroups(gs)
  {
    forall k :: 0 < k < |gs| ==> IsRestoring(all, gs[k - 1][0]) || IsRestoring(all, gs[k][0])
  }

  /** Every group is non-empty and its last id is a revision. */
  ghost predicate GroupsFit(gs: seq<seq<int>>, all: map<int, Revision>)
  {
    forall k :: 0 <= k < |gs| ==> |gs[k]| > 0 && Last(gs[k]) in all
  }

  /** `groupedRevisionIds` partitions the revision ids: the groups, read in
      order, list every id of `all` exactly once and in ascending order, and
      restoring revisions stand alone. */
  ghost predicate IsGrouping(gs: seq<seq<int>>, all: map<int, Revision>)
  {
    && GroupsFit(gs, all)
    && StrictlySorted(Flatten(gs))
    && (forall x :: x in Flatten(gs) <==> x in all)
    && RestoringAlone(all, gs)
  }

  /** The reducer's accumulator: the initial `[[]]`, or non-empty groups. */
  ghost predicate RepackAcc(prev: seq<seq<int>>)
  {
    prev == [[]] || (|prev| > 0 && NonEmptyGroups(prev))
  }

  lemma RepackStepFlatten(all: map<int, Revision>, prev: seq<seq<int>>, id: int)
    requires |prev| > 0
    ensures Flatten(RepackStep(all, prev, id)) == Flatten(prev) + [id]
  {
    var last := prev[|prev| - 1];
    if |last| == 0 || (!IsRestoring(all, id) && !IsRestoring(all, last[0])) {
      FlattenJoinLast(prev, id);
    } else {
      FlattenSnoc(prev, [id]);
    }
  }

  lemma FlattenJoinLast(prev: seq<seq<int>>, id: int)
    requires |prev| > 0
    ensures Flatten(prev[..|prev| - 1] + [prev[|prev| - 1] + [id]]) == Flatten(prev) + [id]
  {
    FlattenSnoc(prev[..|prev| - 1], prev[|prev| - 1] + [id]);
  }

  lemma RepackStepAcc(all: map<int, Revision>, prev: seq<seq<int>>, id: int)
    requires RepackAcc(prev)
    ensures NonEmptyGroups(RepackStep(all, prev, id))
  {
    var n := |prev|;
    var r := RepackStep(all, prev, id);
    forall k | 0 <= k < |r| ensures |r[k]| > 0 {
      if k < n - 1 { assert r[k] == prev[k]; }
      else if k == n - 1 && |r| > n { assert r[k] == prev[k]; }
    }
  }

  lemma RepackStepAlone(all: map<int, Revision>, prev: seq<seq<int>>, id: int)
    requires |prev| > 0 && RestoringAlone(all, prev)
    ensures RestoringAlone(all, RepackStep(all, prev, id))
  {
    var n := |prev|;
    var last := prev[n - 1];
    var r := RepackStep(all, prev, id);
    if |last| == 0 || (!IsRestoring(all, id) && !IsRestoring(all, last[0])) {
      // a joinable last group holds no restoring revision at all
      forall j | 0 <= j < |last| ensures !IsRestoring(all, last[j]) {
        if j > 0 { assert |prev[n - 1]| > 1; }
      }
      forall k, j | 0 <= k < |r| && 0 <= j < |r[k]| && IsRestoring(all, r[k][j])
        ensures |r[k]| == 1
      {
        if k < n - 1 {
          assert r[k] == prev[k];
        } else {
          assert r[k] == last + [id];
        }
      }
    } else {
      forall k, j | 0 <= k < |r| && 0 <= j < |r[k]| && IsRestoring(all, r[k][j])
        ensures |r[k]| == 1
      {
        if k < n { assert r[k] == prev[k]; }
      }
    }
  }

  lemma RepackStepSplit(all: map<int, Revision>, prev: seq<seq<int>>, id: int)
    requires |prev| > 0 && NonEmptyGroups(prev) && SplitOnlyAtRestoring(all, prev)
    ensures NonEmptyGroups(RepackStep(all, prev, id))
    ensures SplitOnlyAtRestoring(all, RepackStep(all, prev, id))
  {
    RepackStepAcc(all, prev, id);
    var n := |prev|;
    var last := prev[n - 1];
    var r := RepackStep(all, prev, id);
    if |last| == 0 || (!IsRestoring(all, id) && !IsRestoring(all, last[0])) {
      forall k | 0 < k < |r|
        ensures IsRestoring(all, r[k - 1][0]) || IsRestoring(all, r[k][0])
      {
        assert r[k - 1][0] == prev[k - 1][0];
        assert r[k][0] == prev[k][0];
      }
    } else {
      forall k | 0 < k < |r|
        ensures IsRestoring(all, r[k - 1][0]) || IsRestoring(all, r[k][0])
      {
        if k < n { assert r[k] == prev[k] && r[k - 1] == prev[k - 1]; }
      }
    }
  }

  lemma {:induction false} RepackedFlatten(all: map<int, Revision>, chunk: seq<int>)
    ensures Flatten(Repacked(all, chunk)) == chunk
    decreases |chunk|
  {
    if chunk != [] {
      var init := chunk[..|chunk| - 1];
      var id := chunk[|chunk| - 1];
      RepackedFlatten(all, init);
      RepackStepFlatten(all, Repacked(all, init), id);
      assert chunk == init + [id];
    }
  }

  lemma {:induction false} RepackedShape(all: map<int, Revision>, chunk: seq<int>)
    ensures RepackAcc(Repacked(all, chunk))
    ensures chunk != [] ==> NonEmptyGroups(Repacked(all, chunk))
    ensures RestoringAlone(all, Repacked(all, chunk))
    decreases |chunk|
  {
    if chunk != [] {
      var init := chunk[..|chunk| - 1];
      var id := chunk[|chunk| - 1];
      RepackedShape(all, init);
      RepackStepAcc(all, Repacked(all, init), id);
      RepackStepAlone(all, Repacked(all, init), id);
    }
  }

  /** Repacking a chunk keeps its ids in order, makes only non-empty
      groups, and leaves every restoring revision alone in its group. */
  lemma RepackedProperties(all: map<int, Revision>, chunk: seq<int>)
    ensures Flatten(Repacked(all, chunk)) == chunk
    ensures RepackAcc(Repacked(all, chunk))
    ensures chunk != [] ==> NonEmptyGroups(Repacked(all, chunk))
    ensures RestoringAlone(all, Repacked(all, chunk))
  {
    RepackedFlatten(all, chunk);
    RepackedShape(all, chunk);
  }

  /** Within one chunk, two neighbouring groups are separate only because
      one of them starts with a restoring revision. */
  lemma {:induction false} RepackedSplitsOnlyAtRestoring(all: map<int, Revision>, chunk: seq<int>)
    requires chunk != []
    ensures NonEmptyGroups(Repacked(all, chunk))
    ensures SplitOnlyAtRestoring(all, Repacked(all, chunk))
    decreases |chunk|
  {
    var init := chunk[..|chunk| - 1];
    var id := chunk[|chunk| - 1];
    if init == [] {
      assert Repacked(all, init) == [[]];
      assert RepackStep(all, [[]], id) == [[] + [id]];
      assert [] + [id] == [id];
    } else {
      RepackedSplitsOnlyAtRestoring(all, init);
      RepackStepSplit(all, Repacked(all, init), id);
    }
  }

  lemma ConcatNonEmptyAlone(all: map<int, Revision>, a: seq<seq<int>>, b: seq<seq<int>>)
    requires NonEmptyGroups(a) && NonEmptyGroups(b)
    requires RestoringAlone(all, a) && RestoringAlone(all, b)
    ensures NonEmptyGroups(a + b) && RestoringAlone(all, a + b)
  {
    var g := a + b;
    forall k, j | 0 <= k < |g| && 0 <= j < |g[k]| && IsRestoring(all, g[k][j])
      ensures |g[k]| == 1
    {
      if k < |a| { assert g[k] == a[k]; } else { assert g[k] == b[k - |a|]; }
    }
    forall k | 0 <= k < |g| ensures |g[k]| > 0 {
      if k < |a| { assert g[k] == a[k]; } else { assert g[k] == b[k - |a|]; }
    }
  }

  lemma {:induction false} GroupedProperties(all: map<int, Revision>, chunks: seq<seq<int>>)
    requires forall c :: c in chunks ==> |c| > 0
    ensures Flatten(Grouped(all, chunks)) == Flatten(chunks)
    ensures NonEmptyGroups(Grouped(all, chunks))
    ensures RestoringAlone(all, Grouped(all, chunks))
    decreases |chunks|
  {
    if chunks != [] {
      var init := chunks[..|chunks| - 1];
      var c := chunks[|chunks| - 1];
      assert forall x :: x in init ==> x in chunks;
      assert c in chunks;
      GroupedProperties(all, init);
      RepackedProperties(all, c);
      FlattenAppend(Grouped(all, init), Repacked(all, c));
      ConcatNonEmptyAlone(all, Grouped(all, init), Repacked(all, c));
    }
  }

  lemma {:induction false} ElemInFlatten(gs: seq<seq<int>>, k: int, j: int)
    requires 0 <= k < |gs| && 0 <= j < |gs[k]|
    ensures gs[k][j] in Flatten(gs)
    decreases |gs|
  {
    var init := gs[..|gs| - 1];
    assert Flatten(gs) == Flatten(init) + gs[|gs| - 1];
    if k < |gs| - 1 {
      assert gs[k] == init[k];
      ElemInFlatten(init, k, j);
    }
  }

  /** Grouping sorted keys chunked by the helper gives a partition of the
      revision ids with restoring revisions alone. */
  lemma GroupedIsGrouping(all: map<int, Revision>, ts: seq<int>, chunks: seq<seq<int>>)
    requires IsSortedKeyList(ts, all.Keys) && IsChunking(chunks, ts)
    ensures IsGrouping(Grouped(all, chunks), all)
    ensures Flatten(Grouped(all, chunks)) == ts
  {
    var gs := Grouped(all, chunks);
    GroupedProperties(all, chunks);
    forall k | 0 <= k < |gs| ensures |gs[k]| > 0 && Last(gs[k]) in all {
      ElemInFlatten(gs, k, |gs[k]| - 1);
    }
  }

  // ---------------------------------------------------------------------
  // Group records

  /** The members' patch arrays in group order (`groupObj.patch.push(all[ts].patch)`). */
  function MemberPatches(all: map<int, Revision>, g: seq<int>): seq<seq<string>>
  {
    if g == [] then []
    else MemberPatches(all, g[..|g| - 1]) + (if g[|g| - 1] in all then [all[g[|g| - 1]].patch] else [])
  }

  /** The members' contributor lists, concatenated in group order. */
  function MemberContributors(all: map<int, Revision>, g: seq<int>): seq<string>
  {
    if g == [] then []
    else MemberContributors(all, g[..|g| - 1]) + (if g[|g| - 1] in all then all[g[|g| - 1]].info.contributors else [])
  }

  /** Keeps the first occurrence of every element (the `indexOf(ct) === -1`
      push loop). */
  function Dedup(s: seq<string>): seq<string>
  {
    if s == [] then []
    else
      var d := Dedup(s[..|s| - 1]);
      if s[|s| - 1] in d then d else d + [s[|s| - 1]]
  }

  function FirstIndex(s: seq<string>, x: string): (i: nat)
    requires x in s
    ensures i < |s| && s[i] == x && forall k :: 0 <= k < i ==> s[k] != x
  {
    if s[0] == x then 0 else 1 + FirstIndex(s[1..], x)
  }

  lemma DedupSnoc(s: seq<string>, x: string)
    ensures Dedup(s + [x]) == if x in Dedup(s) then Dedup(s) else Dedup(s) + [x]
  {
    assert (s + [x])[..|s|] == s;
  }

  lemma {:induction false} FirstIndexIs(s: seq<string>, y: string, i: nat)
    requires i < |s| && s[i] == y && forall k :: 0 <= k < i ==> s[k] != y
    ensures FirstIndex(s, y) == i
    decreases i
  {
    if i > 0 {
      assert s[0] != y;
      FirstIndexIs(s[1..], y, i - 1);
    }
  }

  lemma FirstIndexPrefix(s: seq<string>, x: string, y: string)
    requires y in s
    ensures FirstIndex(s + [x], y) == FirstIndex(s, y)
  {
    var i := FirstIndex(s, y);
    FirstIndexIs(s + [x], y, i);
  }

  lemma {:induction false} DedupMembers(s: seq<string>)
    ensures forall x :: x in Dedup(s) <==> x in s
    decreases |s|
  {
    if s != [] {
      var init := s[..|s| - 1];
      var x := s[|s| - 1];
      assert s == init + [x];
      DedupMembers(init);
      DedupSnoc(init, x);
    }
  }

  lemma {:induction false} DedupDistinct(s: seq<string>)
    ensures forall i, j :: 0 <= i < j < |Dedup(s)| ==> Dedup(s)[i] != Dedup(s)[j]
    decreases |s|
  {
    if s != [] {
      var init := s[..|s| - 1];
      var x := s[|s| - 1];
      assert s == init + [x];
      DedupDistinct(init);
      DedupSnoc(init, x);
      var d := Dedup(init);
      if x !in d {
        forall i, j | 0 <= i < j < |d| + 1 ensures (d + [x])[i] != (d + [x])[j] {
          if j == |d| {
            assert (d + [x])[i] == d[i] && d[i] in d;
          } else {
            assert (d + [x])[i] == d[i] && (d + [x])[j] == d[j];
          }
        }
      }
    }
  }

  /** The elements of `d`, all found in `s`, are listed in the order of
      their first occurrence in `s`. */
  ghost predicate InFirstSeenOrder(s: seq<string>, d: seq<string>)
  {
    && (forall y :: y in d ==> y in s)
    && (forall i, j :: 0 <= i < j < |d| ==> FirstIndex(s, d[i]) < FirstIndex(s, d[j]))
  }

  lemma {:induction false} DedupOrder(s: seq<string>)
    ensures InFirstSeenOrder(s, Dedup(s))
    decreases |s|
  {
    if s != [] {
      var init := s[..|s| - 1];
      assert s == init + [s[|s| - 1]];
      DedupOrder(init);
      DedupOrderStep(init, s[|s| - 1]);
    }
  }

  /** One more element keeps the de-duplicated list in first-seen order. */
  lemma DedupOrderStep(init: seq<string>, x: string)
    requires InFirstSeenOrder(init, Dedup(init))
    ensures InFirstSeenOrder(init + [x], Dedup(init + [x]))
  {
    DedupSnoc(init, x);
    DedupMembers(init);
    if x in Dedup(init) {
      FirstSeenOrderGrows(init, x, Dedup(init));
    } else {
      FirstSeenOrderAppends(init, x, Dedup(init));
    }
  }

  /** Appending to `s` keeps the first occurrences of what it holds. */
  lemma FirstSeenOrderGrows(s: seq<string>, x: string, d: seq<string>)
    requires InFirstSeenOrder(s, d)
    ensures InFirstSeenOrder(s + [x], d)
  {
    forall y | y in d ensures FirstIndex(s + [x], y) == FirstIndex(s, y) {
      FirstIndexPrefix(s, x, y);
    }
  }

  /** A new element, first seen last, goes last. */
  lemma FirstSeenOrderAppends(s: seq<string>, x: string, d: seq<string>)
    requires InFirstSeenOrder(s, d) && x !in s
    ensures InFirstSeenOrder(s + [x], d + [x])
  {
    var s' := s + [x];
    FirstSeenOrderGrows(s, x, d);
    FirstIndexIs(s', x, |s|);
    forall i, j | 0 <= i < j < |d| + 1
      ensures FirstIndex(s', (d + [x])[i]) < FirstIndex(s', (d + [x])[j])
    {
      assert (d + [x])[i] == d[i];
      if j < |d| {
        assert (d + [x])[j] == d[j];
      } else {
        FirstIndexPrefix(s, x, d[i]);
      }
    }
  }

  /** Dedup lists each element of its input exactly once, in the order of
      first appearance. */
  lemma DedupProperties(s: seq<string>)
    ensures forall x :: x in Dedup(s) <==> x in s
    ensures forall i, j :: 0 <= i < j < |Dedup(s)| ==> Dedup(s)[i] != Dedup(s)[j]
    ensures forall i, j :: 0 <= i < j < |Dedup(s)| ==> FirstIndex(s, Dedup(s)[i]) < FirstIndex(s, Dedup(s)[j])
  {
    DedupMembers(s);
    DedupDistinct(s);
    DedupOrder(s);
  }

  /** The compact record of one group: every field but the patch from the
      group's last revision, `first` = the group's first id, the members'
      patches, and the de-duplicated contributors. */
  function GroupRecord(all: map<int, Revision>, g: seq<int>): CompactRevision
    requires |g| > 0 && Last(g) in all
  {
    var info := all[Last(g)].info;
    CompactRevision(info.(contributors := Dedup(MemberContributors(all, g))), g[0], MemberPatches(all, g))
  }

  /** `compactRevisions`: one record per group under the group's last id,
      a later group overwriting an earlier one with the same last id. */
  function CompactMap(all: map<int, Revision>, gs: seq<seq<int>>): map<int, CompactRevision>
    requires GroupsFit(gs, all)
  {
    if gs == [] then map[]
    else
      var g := gs[|gs| - 1];
      CompactMap(all, gs[..|gs| - 1])[Last(g) := GroupRecord(all, g)]
  }

  lemma {:induction false} LastsIncrease(gs: seq<seq<int>>)
    requires NonEmptyGroups(gs) && StrictlySorted(Flatten(gs))
    ensures forall k, k' :: 0 <= k < k' < |gs| ==> Last(gs[k]) < Last(gs[k'])
    decreases |gs|
  {
    if gs != [] {
      var init := gs[..|gs| - 1];
      var g := gs[|gs| - 1];
      var f := Flatten(init);
      assert Flatten(gs) == f + g;
      assert StrictlySorted(f) by {
        forall i, j | 0 <= i < j < |f| ensures f[i] < f[j] {
          assert (f + g)[i] == f[i] && (f + g)[j] == f[j];
        }
      }
      LastsIncrease(init);
      forall k, k' | 0 <= k < k' < |gs| ensures Last(gs[k]) < Last(gs[k']) {
        if k' < |gs| - 1 {
          assert gs[k] == init[k] && gs[k'] == init[k'];
        } else {
          assert gs[k] == init[k];
          ElemInFlatten(init, k, |init[k]| - 1);
          var i :| 0 <= i < |f| && f[i] == Last(gs[k]);
          assert (f + g)[i] == f[i];
          assert (f + g)[|f| + |g| - 1] == Last(g);
        }
      }
    }
  }

  lemma InitFits(all: map<int, Revision>, gs: seq<seq<int>>, init: seq<seq<int>>)
    requires GroupsFit(gs, all) && gs != [] && init == gs[..|gs| - 1]
    requires forall k, k' :: 0 <= k < k' < |gs| ==> Last(gs[k]) < Last(gs[k'])
    ensures GroupsFit(init, all)
    ensures forall k, k' :: 0 <= k < k' < |init| ==> Last(init[k]) < Last(init[k'])
  {
    forall k | 0 <= k < |init| ensures |init[k]| > 0 && Last(init[k]) in all { assert init[k] == gs[k]; }
    forall k, k' | 0 <= k < k' < |init| ensures Last(init[k]) < Last(init[k']) {
      assert init[k] == gs[k] && init[k'] == gs[k'];
    }
  }

  lemma {:induction false} CompactMapRecords(all: map<int, Revision>, gs: seq<seq<int>>)
    requires GroupsFit(gs, all)
    requires forall k, k' :: 0 <= k < k' < |gs| ==> Last(gs[k]) < Last(gs[k'])
    ensures forall k :: 0 <= k < |gs| ==> Last(gs[k]) in CompactMap(all, gs) && CompactMap(all, gs)[Last(gs[k])] == GroupRecord(all, gs[k])
    decreases |gs|
  {
    if gs != [] {
      var init := gs[..|gs| - 1];
      InitFits(all, gs, init);
      CompactMapRecords(all, init);
      var m := CompactMap(all, gs);
      forall k | 0 <= k < |gs| ensures Last(gs[k]) in m && m[Last(gs[k])] == GroupRecord(all, gs[k]) {
        if k < |gs| - 1 {
          assert init[k] == gs[k];
          assert Last(gs[k]) < Last(gs[|gs| - 1]);
        }
      }
    }
  }

  lemma {:induction false} CompactMapKeys(all: map<int, Revision>, gs: seq<seq<int>>)
    requires GroupsFit(gs, all)
    ensures forall x :: x in CompactMap(all, gs) <==> exists k :: 0 <= k < |gs| && x == Last(gs[k])
    decreases |gs|
  {
    if gs != [] {
      var init := gs[..|gs| - 1];
      assert GroupsFit(init, all) by {
        forall k | 0 <= k < |init| ensures |init[k]| > 0 && Last(init[k]) in all { assert init[k] == gs[k]; }
      }
      CompactMapKeys(all, init);
      var m := CompactMap(all, gs);
      assert m == CompactMap(all, init)[Last(gs[|gs| - 1]) := GroupRecord(all, gs[|gs| - 1])];
      forall x | x in m ensures exists k :: 0 <= k < |gs| && x == Last(gs[k]) {
        if x != Last(gs[|gs| - 1]) {
          assert x in CompactMap(all, init);
          var k :| 0 <= k < |init| && x == Last(init[k]);
          assert init[k] == gs[k];
        }
      }
      forall x | exists k :: 0 <= k < |gs| && x == Last(gs[k]) ensures x in m {
        var k :| 0 <= k < |gs| && x == Last(gs[k]);
        if k < |gs| - 1 {
          assert init[k] == gs[k];
          assert exists k0 :: 0 <= k0 < |init| && x == Last(init[k0]);
        }
      }
    }
  }

  /** With distinct last ids (as in a partition), every group's record sits
      under its own last id, and there is no other key. */
  lemma CompactMapAt(all: map<int, Revision>, gs: seq<seq<int>>)
    requires GroupsFit(gs, all)
    requires forall k, k' :: 0 <= k < k' < |gs| ==> Last(gs[k]) < Last(gs[k'])
    ensures forall k :: 0 <= k < |gs| ==> Last(gs[k]) in CompactMap(all, gs) && CompactMap(all, gs)[Last(gs[k])] == GroupRecord(all, gs[k])
    ensures forall x :: x in CompactMap(all, gs) <==> exists k :: 0 <= k < |gs| && x == Last(gs[k])
  {
    CompactMapRecords(all, gs);
    CompactMapKeys(all, gs);
  }

  /** A path's revision object is consistent when its groups partition the
      ids of `allRevisions` and its compact map is the one those groups
      give; before any revision set has arrived it holds neither. */
  ghost predicate CompactConsistent(o: RevObj)
  {
    && (o.allRevisions.None? ==> o.groupedRevisionIds == [] && o.compactRevisions.None?)
    && (o.allRevisions.Some? ==>
          && IsGrouping(o.groupedRevisionIds, o.allRevisions.value)
          && o.compactRevisions == Some(CompactMap(o.allRevisions.value, o.groupedRevisionIds)))
  }

  /** A newly created object keeps the compaction invariant, holds no
      revisions to regenerate from, and regeneration leaves it as it is. */
  lemma NewRevObjConsistent(sortKeys: set<int> -> seq<int>, split: seq<int> -> seq<seq<int>>)
    requires SortsKeys(sortKeys) && SplitsIntoChunks(split)
    ensures CompactConsistent(NewRevObj())
    ensures NewRevObj().allRevisions.None? && Regenerated(NewRevObj(), sortKeys, split) == NewRevObj()
  {
  }

  // ---------------------------------------------------------------------
  // The loops of generateCompactRevisions

  /** The `__reduce(repack, [[]])` over one chunk. */
  method RepackChunk(all: map<int, Revision>, chunk: seq<int>) returns (prev: seq<seq<int>>)
    ensures prev == Repacked(all, chunk)
  {
    prev := [[]];
    var i := 0;
    while i < |chunk|
      invariant 0 <= i <= |chunk|
      invariant prev == Repacked(all, chunk[..i])
    {
      var id := chunk[i];
      var last := prev[|prev| - 1];
      if |last| == 0 || (!IsRestoring(all, id) && !IsRestoring(all, last[0])) {
        prev := prev[..|prev| - 1] + [last + [id]];
      } else {
        prev := prev + [[id]];
      }
      assert chunk[..i + 1][..i] == chunk[..i];
      i := i + 1;
    }
    assert chunk[..|chunk|] == chunk;
  }

  /** The inner `forEach` that pushes a revision's contributors not seen
      yet in the group. */
  method PushContributors(contributors: seq<string>, ghost before: seq<string>, cs: seq<string>) returns (r: seq<string>)
    requires contributors == Dedup(before)
    ensures r == Dedup(before + cs)
  {
    r := contributors;
    assert before + cs[..0] == before;
    var j := 0;
    while j < |cs|
      invariant 0 <= j <= |cs|
      invariant r == Dedup(before + cs[..j])
    {
      assert before + cs[..j + 1] == (before + cs[..j]) + [cs[j]];
      DedupSnoc(before + cs[..j], cs[j]);
      if cs[j] !in r {
        r := r + [cs[j]];
      }
      j := j + 1;
    }
    assert cs[..|cs|] == cs;
  }

  /** The body of `finalTS.forEach`: builds one group's record with its
      patch and contributor push loops. */
  method BuildGroupRecord(all: map<int, Revision>, tsGroup: seq<int>) returns (rec: CompactRevision)
    requires |tsGroup| > 0 && Last(tsGroup) in all
    ensures rec == GroupRecord(all, tsGroup)
  {
    var id := tsGroup[|tsGroup| - 1];
    var patch: seq<seq<string>> := [];
    var contributors: seq<string> := [];
    var i := 0;
    while i < |tsGroup|
      invariant 0 <= i <= |tsGroup|
      invariant patch == MemberPatches(all, tsGroup[..i])
      invariant contributors == Dedup(MemberContributors(all, tsGroup[..i]))
    {
      var ts := tsGroup[i];
      assert tsGroup[..i + 1][..i] == tsGroup[..i];
      ghost var before := MemberContributors(all, tsGroup[..i]);
      if ts in all {
        patch := patch + [all[ts].patch];
        var cs := all[ts].info.contributors;
        contributors := PushContributors(contributors, before, cs);
        assert MemberContributors(all, tsGroup[..i + 1]) == before + cs;
      } else {
        assert MemberContributors(all, tsGroup[..i + 1]) == before;
      }
      i := i + 1;
    }
    assert tsGroup[..|tsGroup|] == tsGroup;
    rec := CompactRevision(all[id].info.(contributors := contributors), tsGroup[0], patch);
  }

  /** `generateCompactRevisions` on one revision set, given the sorted
      timestamps and the time-lapse chunks of them: the groups partition the
      ids with restoring revisions alone and are split only where a
      restoring revision or a chunk boundary demands, and the compact map
      holds, under each group's last id, that group's record. */
  method CompactRevisions(all: map<int, Revision>, timestamps: seq<int>, chunks: seq<seq<int>>)
    returns (groups: seq<seq<int>>, compact: map<int, CompactRevision>)
    requires IsSortedKeyList(timestamps, all.Keys) && IsChunking(chunks, timestamps)
    ensures groups == Grouped(all, chunks)
    ensures IsGrouping(groups, all) && Flatten(groups) == timestamps
    ensures compact == CompactMap(all, groups)
    ensures forall k :: 0 <= k < |groups| ==> Last(groups[k]) in compact && compact[Last(groups[k])] == GroupRecord(all, groups[k])
    ensures forall x :: x in compact <==> exists k :: 0 <= k < |groups| && x == Last(groups[k])
  {
    groups := GroupTimestamps(all, chunks);
    GroupedIsGrouping(all, timestamps, chunks);
    compact := BuildCompactMap(all, groups);
    LastsIncrease(groups);
    CompactMapAt(all, groups);
  }

  /** The `Util.compactRevisions(timestamps).forEach` loop that fills `finalTS`. */
  method GroupTimestamps(all: map<int, Revision>, chunks: seq<seq<int>>) returns (groups: seq<seq<int>>)
    ensures groups == Grouped(all, chunks)
  {
    groups := [];
    var c := 0;
    while c < |chunks|
      invariant 0 <= c <= |chunks|
      invariant groups == Grouped(all, chunks[..c])
    {
      var g := RepackChunk(all, chunks[c]);
      assert chunks[..c + 1][..c] == chunks[..c];
      groups := groups + g;
      c := c + 1;
    }
    assert chunks[..|chunks|] == chunks;
  }

  /** The `finalTS.forEach` loop that fills `compactRevisions`. */
  method BuildCompactMap(all: map<int, Revision>, groups: seq<seq<int>>) returns (compact: map<int, CompactRevision>)
    requires GroupsFit(groups, all)
    ensures compact == CompactMap(all, groups)
  {
    compact := map[];
    var k := 0;
    while k < |groups|
      invariant 0 <= k <= |groups|
      invariant GroupsFit(groups[..k], all)
      invariant compact == CompactMap(all, groups[..k])
    {
      var rec := BuildGroupRecord(all, groups[k]);
      assert groups[..k + 1][..k] == groups[..k];
      compact := compact[Last(groups[k]) := rec];
      k := k + 1;
    }
    assert groups[..|groups|] == groups;
  }

  /** What `generateCompactRevisions(revObj)` leaves in the object: nothing
      changes without `allRevisions`; otherwise `groupedRevisionIds` and
      `compactRevisions` are rebuilt from the sorted, chunked ids and every
      other field, `allRevisions` included, is kept. */
  function Regenerated(o: RevObj, sortKeys: set<int> -> seq<int>, split: seq<int> -> seq<seq<int>>): (r: RevObj)
    requires SortsKeys(sortKeys) && SplitsIntoChunks(split)
    ensures r.allRevisions == o.allRevisions
    ensures r.(groupedRevisionIds := o.groupedRevisionIds, compactRevisions := o.compactRevisions) == o
    ensures o.allRevisions.Some? ==> CompactConsistent(r)
    ensures o.allRevisions.Some? ==> Flatten(r.groupedRevisionIds) == sortKeys(o.allRevisions.value.Keys)
    ensures CompactConsistent(o) ==> CompactConsistent(r)
  {
    if o.allRevisions.None? then o
    else
      var all := o.allRevisions.value;
      var ts := sortKeys(all.Keys);
      var chunks := split(ts);
      assert IsSortedKeyList(ts, all.Keys) && IsChunking(chunks, ts);
      GroupedIsGrouping(all, ts, chunks);
      var gs := Grouped(all, chunks);
      o.(groupedRevisionIds := gs, compactRevisions := Some(CompactMap(all, gs)))
  }

  /** `generateCompactRevisions(revObj)`, with its loops. */
  method GenerateCompactRevisions(obj: RevObj, sortKeys: set<int> -> seq<int>, split: seq<int> -> seq<seq<int>>)
    returns (r: RevObj)
    requires SortsKeys(sortKeys) && SplitsIntoChunks(split)
    ensures r == Regenerated(obj, sortKeys, split)
  {
    if obj.allRevisions.None? {
      r := obj;
      return;
    }
    var all := obj.allRevisions.value;
    var timestamps := sortKeys(all.Keys);
    var chunks := split(timestamps);
    var groups, compact := CompactRevisions(all, timestamps, chunks);
    r := obj.(groupedRevisionIds := groups, compactRevisions := Some(compact));
  }

}
