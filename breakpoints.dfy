/** The debugger's breakpoint bookkeeping: the gutter markers of an editor
    session (a sparse array of CSS class strings indexed by row), the
    breakpoint records of the breakpoint model, and the map from script
    names to debugger scripts that `$syncTree` builds. */
module Breakpoints {
  import opened Wrappers
  import opened Strings

  // ---------------------------------------------------------------------
  // Gutter markers

  /** The marker of an enabled and of a disabled breakpoint. */
  const EnabledClass := " ace_breakpoint "
  const DisabledClass := " ace_breakpoint disabled "

  /** A slot of the sparse marker array: `None` for a hole, `undefined` or
      `null`; JavaScript reads an empty string as absent too. */
  predicate Truthy(bp: Option<string>)
  {
    bp.Some? && bp.value != ""
  }

  /** `session.getBreakpoints()[row]`: a hole past the end. */
  function RowAt(bps: seq<Option<string>>, row: nat): Option<string>
  {
    if row < |bps| then bps[row] else None
  }

  /** `Array(n)`: `n` rows without a marker. */
  function EmptyRows(n: nat): seq<Option<string>>
  {
    seq(n, _ => None)
  }

  /** `bps[row] = v`: an assignment past the end grows the array with
      holes. Only that row changes. */
  function SetRow(bps: seq<Option<string>>, row: nat, v: Option<string>): (r: seq<Option<string>>)
    ensures |r| == if row < |bps| then |bps| else row + 1
    ensures RowAt(r, row) == v
    ensures forall k :: k != row ==> RowAt(r, k) == RowAt(bps, k)
  {
    if row < |bps| then bps[row := v] else bps + EmptyRows(row - |bps|) + [v]
  }

  /** The marker a gutter click gives a row, from the one it has. */
  function NextGutterState(bp: Option<string>): Option<string>
  {
    if !Truthy(bp) then Some(EnabledClass)
    else if IndexOf(bp.value, "disabled") == -1 then Some(DisabledClass)
    else None
  }

  /** Clicks cycle a row from no breakpoint to enabled, to disabled, and
      back to none: three clicks on a row without a marker leave none. */
  lemma GutterCycle(bp: Option<string>)
    ensures NextGutterState(None) == Some(EnabledClass)
    ensures NextGutterState(Some(EnabledClass)) == Some(DisabledClass)
    ensures NextGutterState(Some(DisabledClass)) == None
    ensures !Truthy(bp) ==> NextGutterState(NextGutterState(NextGutterState(bp))) == None
  {
    AbsentFirstChar(EnabledClass, "disabled");
    assert OccursAt(DisabledClass, "disabled", 16);
  }

  /** `Array.prototype.splice(start, deleteCount, ...items)` for
      non-negative arguments: the start is clamped to the length, the count
      to what is left after it. Returns the new array and the removed
      elements. */
  function Splice<T>(a: seq<T>, start: nat, deleteCount: nat, items: seq<T>): (seq<T>, seq<T>)
  {
    var s := if start < |a| then start else |a|;
    var dc := if deleteCount < |a| - s then deleteCount else |a| - s;
    (a[..s] + items + a[s + dc..], a[s..s + dc])
  }

  /** What `splice` promises: it removes as many elements as the clamped
      count allows, puts the items where they were, and the array is the
      new one with the items replaced by the removed elements. */
  lemma SpliceShape<T>(a: seq<T>, start: nat, deleteCount: nat, items: seq<T>)
    ensures var s := if start < |a| then start else |a|;
      var r := Splice(a, start, deleteCount, items);
      && |r.1| == (if deleteCount < |a| - s then deleteCount else |a| - s)
      && |r.0| == |a| - |r.1| + |items|
      && a == r.0[..s] + r.1 + r.0[s + |items|..]
      && r.0[s..s + |items|] == items
  {
    var s := if start < |a| then start else |a|;
    var r := Splice(a, start, deleteCount, items);
    assert r.0[..s] == a[..s];
    assert r.0[s + |items|..] == a[s + |r.1|..];
  }

  /** Splicing the removed elements back in place of the inserted ones
      restores the array. */
  lemma SpliceUndo<T>(a: seq<T>, start: nat, deleteCount: nat, items: seq<T>)
    requires start <= |a|
    ensures var r := Splice(a, start, deleteCount, items);
      Splice(r.0, start, |items|, r.1).0 == a
  {
    var r := Splice(a, start, deleteCount, items);
    assert r.0[..start] == a[..start];
  }

  /** The first truthy element of an array, as the `for each … break` of the
      change listener finds it. */
  function FirstTruthy(rem: seq<Option<string>>): (r: Option<string>)
    ensures r.Some? ==> Truthy(r) && exists j :: 0 <= j < |rem| && rem[j] == r && forall i :: 0 <= i < j ==> !Truthy(rem[i])
    ensures r.None? ==> forall i :: 0 <= i < |rem| ==> !Truthy(rem[i])
  {
    if rem == [] then None
    else if Truthy(rem[0]) then rem[0]
    else
      var r := FirstTruthy(rem[1..]);
      assert r.Some? ==> exists j :: 0 <= j < |rem| && rem[j] == r && forall i :: 0 <= i < j ==> !Truthy(rem[i]) by {
        if r.Some? {
          var j :| 0 <= j < |rem[1..]| && rem[1..][j] == r && forall i :: 0 <= i < j ==> !Truthy(rem[1..][i]);
          assert rem[j + 1] == r;
          assert forall i :: 0 <= i < j + 1 ==> !Truthy(rem[i]) by {
            forall i | 0 <= i < j + 1 ensures !Truthy(rem[i]) {
              if i > 0 { assert rem[i] == rem[1..][i - 1]; }
            }
          }
        }
      }
      r
  }

  /** The row the change listener shifts at: the row of the change, or the
      row after it for an insertion that does not start at column 0. */
  function FirstRow(isInsert: bool, startRow: nat, startCol: nat): nat
  {
    if isInsert then (if startCol == 0 then startRow else startRow + 1) else startRow
  }

  /** The marker array after the change listener has seen a change from
      `startRow` to `endRow`. */
  function Shifted(bps: seq<Option<string>>, isInsert: bool, startRow: nat, startCol: nat, endRow: nat): seq<Option<string>>
  {
    var firstRow := FirstRow(isInsert, startRow, startCol);
    if endRow == startRow then bps
    else if endRow > startRow then Splice(bps, firstRow, 0, EmptyRows(endRow - startRow)).0
    else RemoveRows(bps, firstRow, startRow - endRow)
  }

  /** The removal branch of the listener: `n` rows after `firstRow` are
      spliced out, and `firstRow`, when it has no marker, takes the first
      one removed. */
  function RemoveRows(bps: seq<Option<string>>, firstRow: nat, n: nat): seq<Option<string>>
  {
    var r := Splice(bps, firstRow + 1, n, []);
    if !Truthy(RowAt(r.0, firstRow)) && FirstTruthy(r.1).Some? then SetRow(r.0, firstRow, FirstTruthy(r.1))
    else r.0
  }

  /** A change on a single row moves no marker. */
  lemma ShiftedSameRow(bps: seq<Option<string>>, isInsert: bool, row: nat, startCol: nat)
    ensures Shifted(bps, isInsert, row, startCol, row) == bps
  {
  }

  /** A change that adds `len` rows: rows before the first shifted row keep
      their markers, `len` empty rows follow, and every later marker moves
      down by `len` (at the end of the array when the first row is past
      it). */
  lemma ShiftedInsertsRows(bps: seq<Option<string>>, isInsert: bool, startRow: nat, startCol: nat, endRow: nat)
    requires endRow > startRow
    ensures var len := endRow - startRow;
      var f := FirstRow(isInsert, startRow, startCol);
      var p := if f < |bps| then f else |bps|;
      var r := Shifted(bps, isInsert, startRow, startCol, endRow);
      && |r| == |bps| + len
      && (forall k :: 0 <= k < p ==> r[k] == bps[k])
      && (forall k :: p <= k < p + len ==> r[k].None?)
      && (forall k :: p <= k < |bps| ==> r[k + len] == bps[k])
  {
    var len := endRow - startRow;
    var f := FirstRow(isInsert, startRow, startCol);
    var p := if f < |bps| then f else |bps|;
    var r := Shifted(bps, isInsert, startRow, startCol, endRow);
    assert r == bps[..p] + EmptyRows(len) + bps[p..];
  }

  /** A change that removes `n` rows: up to `n` markers after the first
      shifted row `f` go and later ones move up; that row keeps its own
      marker, or takes the first one removed when it had none. */
  lemma RemoveRowsShifts(bps: seq<Option<string>>, f: nat, n: nat)
    ensures var s := if f + 1 < |bps| then f + 1 else |bps|;
      var dc := if n < |bps| - s then n else |bps| - s;
      var removed := bps[s..s + dc];
      var r := RemoveRows(bps, f, n);
      && |r| == |bps| - dc
      && (forall k :: 0 <= k < s && k != f ==> r[k] == bps[k])
      && (forall k :: s <= k < |r| ==> r[k] == bps[k + dc])
      && (Truthy(RowAt(bps, f)) ==> RowAt(r, f) == RowAt(bps, f))
      && (!Truthy(RowAt(bps, f)) && FirstTruthy(removed).Some? ==> RowAt(r, f) == FirstTruthy(removed))
      && (FirstTruthy(removed).None? ==> RowAt(r, f) == RowAt(bps, f))
  {
    var sp := Splice(bps, f + 1, n, []);
    var r := RemoveRows(bps, f, n);
    RemoveSplice(bps, f, n);
    var ft := FirstTruthy(sp.1);
    if !Truthy(RowAt(sp.0, f)) && ft.Some? {
      assert f < |sp.0|;
      assert r == sp.0[f := ft];
    } else {
      assert r == sp.0;
    }
  }

  /** The `splice(firstRow + 1, n)` of a removal, element by element. */
  lemma RemoveSplice(bps: seq<Option<string>>, f: nat, n: nat)
    ensures var s := if f + 1 < |bps| then f + 1 else |bps|;
      var dc := if n < |bps| - s then n else |bps| - s;
      var sp := Splice(bps, f + 1, n, []);
      && sp.1 == bps[s..s + dc]
      && |sp.0| == |bps| - dc
      && (forall k :: 0 <= k < s ==> sp.0[k] == bps[k])
      && (forall k :: s <= k < |sp.0| ==> sp.0[k] == bps[k + dc])
      && (f < |bps| ==> RowAt(sp.0, f) == RowAt(bps, f))
      && (f >= |bps| ==> dc == 0)
  {
    var s := if f + 1 < |bps| then f + 1 else |bps|;
    var dc := if n < |bps| - s then n else |bps| - s;
    var sp := Splice(bps, f + 1, n, []);
    assert sp.0 == bps[..s] + bps[s + dc..];
  }

  /** The marker array after a change, as evidently intended: a removal
      (`removeText` or `removeLines`), whose range also runs downwards,
      takes out the rows it joins to its first row instead of adding
      rows. Insertions are as in `Shifted`. */
  function ShiftedIntended(bps: seq<Option<string>>, isInsert: bool, isRemove: bool,
                           startRow: nat, startCol: nat, endRow: nat): seq<Option<string>>
  {
    if isRemove && endRow > startRow then RemoveRows(bps, startRow, endRow - startRow)
    else Shifted(bps, isInsert, startRow, startCol, endRow)
  }

  /** As intended, a removal of the rows after `startRow` up to `endRow`
      keeps the markers above, and every later marker moves up by the
      number of rows removed. */
  lemma RemovalMovesMarkersUp(bps: seq<Option<string>>, startRow: nat, startCol: nat, endRow: nat)
    requires endRow > startRow
    ensures var s := if startRow + 1 < |bps| then startRow + 1 else |bps|;
      var dc := if endRow - startRow < |bps| - s then endRow - startRow else |bps| - s;
      var r := ShiftedIntended(bps, false, true, startRow, startCol, endRow);
      && |r| == |bps| - dc
      && (forall k :: 0 <= k < startRow && k < |bps| ==> r[k] == bps[k])
      && (forall k :: s <= k < |r| ==> r[k] == bps[k + dc])
  {
    RemoveRowsShifts(bps, startRow, endRow - startRow);
  }

  /** Deleting rows 5 to 7 with a marker on row 8: as written the range
      runs downwards, so the listener adds two empty rows and the marker
      moves down to row 10; as intended it moves up to row 6. */
  lemma RemovalShiftsDownAsWritten()
    ensures var bps := EmptyRows(8) + [Some(EnabledClass)];
      && Shifted(bps, false, 5, 0, 7) == EmptyRows(10) + [Some(EnabledClass)]
      && ShiftedIntended(bps, false, true, 5, 0, 7) == EmptyRows(6) + [Some(EnabledClass)]
  {
    var bps := EmptyRows(8) + [Some(EnabledClass)];
    assert Shifted(bps, false, 5, 0, 7) == EmptyRows(10) + [Some(EnabledClass)] by {
      assert Shifted(bps, false, 5, 0, 7) == bps[..5] + EmptyRows(2) + bps[5..];
    }
    var sp := Splice(bps, 6, 2, []);
    assert sp.0 == EmptyRows(6) + [Some(EnabledClass)];
    assert !Truthy(RowAt(sp.0, 5));
    assert sp.1 == [None, None];
  }

  /** The removal branch of the change listener on the marker array. */
  method SpliceOutRows(bps: seq<Option<string>>, firstRow: nat, n: nat) returns (r: seq<Option<string>>)
    ensures r == RemoveRows(bps, firstRow, n)
  {
    var sp := Splice(bps, firstRow + 1, n, []);
    r := sp.0;
    if !Truthy(RowAt(r, firstRow)) {
      var oldBP := FindFirstTruthy(sp.1);
      if oldBP.Some? {
        r := SetRow(r, firstRow, oldBP);
      }
    }
  }

  /** The `for each (var oldBP in rem) if (oldBP) …; break` loop. */
  method FindFirstTruthy(rem: seq<Option<string>>) returns (r: Option<string>)
    ensures r == FirstTruthy(rem)
  {
    var i := 0;
    while i < |rem|
      invariant 0 <= i <= |rem|
      invariant FirstTruthy(rem) == FirstTruthy(rem[i..])
    {
      if Truthy(rem[i]) {
        return rem[i];
      }
      assert rem[i..][1..] == rem[i + 1..];
      i := i + 1;
    }
    return None;
  }

  /** An editor session's gutter markers. */
  class Session {
    var breakpoints: seq<Option<string>>

    constructor ()
      ensures breakpoints == []
    {
      breakpoints := [];
    }

    /** The `guttermousedown` listener: a click in the marker region of a
        focused editor moves the clicked row to its next state (the row is
        set in place). */
    method GutterClick(row: nat, focused: bool, inMarkers: bool)
      modifies this
      ensures !(focused && inMarkers) ==> breakpoints == old(breakpoints)
      ensures focused && inMarkers ==>
        breakpoints == SetRow(old(breakpoints), row, NextGutterState(RowAt(old(breakpoints), row)))
    {
      if !focused || !inMarkers {
        return;
      }
      var bp := RowAt(breakpoints, row);
      if !Truthy(bp) {
        bp := Some(EnabledClass);
      } else if IndexOf(bp.value, "disabled") == -1 {
        bp := Some(DisabledClass);
      } else {
        bp := None;
      }
      breakpoints := SetRow(breakpoints, row, bp);
    }

    /** The `change` listener of `initSession`. */
    method OnChange(isInsert: bool, startRow: nat, startCol: nat, endRow: nat)
      modifies this
      ensures breakpoints == Shifted(old(breakpoints), isInsert, startRow, startCol, endRow)
    {
      if endRow == startRow {
        return;
      }
      var firstRow := FirstRow(isInsert, startRow, startCol);
      if endRow > startRow {
        breakpoints := Splice(breakpoints, firstRow, 0, EmptyRows(endRow - startRow)).0;
      } else {
        var bps := SpliceOutRows(breakpoints, firstRow, startRow - endRow);
        breakpoints := bps;
      }
    }

    /** The `change` listener as evidently intended, telling removals from
        insertions by the delta's action. */
    method OnChangeIntended(isInsert: bool, isRemove: bool, startRow: nat, startCol: nat, endRow: nat)
      modifies this
      ensures breakpoints == ShiftedIntended(old(breakpoints), isInsert, isRemove, startRow, startCol, endRow)
    {
      if isRemove && endRow > startRow {
        var bps := SpliceOutRows(breakpoints, startRow, endRow - startRow);
        breakpoints := bps;
      } else {
        OnChange(isInsert, startRow, startCol, endRow);
      }
    }

    /** `session.setBreakpoints(rows)`, taken as replacing the markers. */
    method SetBreakpoints(rows: seq<Option<string>>)
      modifies this
      ensures breakpoints == rows
    {
      breakpoints := rows;
    }

    /** `updateSession` as written: the markers become the rows built from
        the records of the document's script (none without a document
        node), and since every row it sets is empty, no row shows a
        breakpoint afterwards. */
    method UpdateSession(node: Option<string>, davPrefixLen: nat, records: seq<BreakpointRecord>, isTrue: string -> bool)
      modifies this
      ensures node.None? ==> breakpoints == []
      ensures node.Some? ==> breakpoints == Rows(records, SliceFrom(node.value, davPrefixLen), RowClassAsWritten, isTrue)
      ensures forall k: nat :: !Truthy(RowAt(breakpoints, k))
    {
      var rows: seq<Option<string>> := [];
      if node.Some? {
        var scriptPath := SliceFrom(node.value, davPrefixLen);
        rows := BuildRows(records, scriptPath, RowClassAsWritten, isTrue);
        forall k: nat ensures !Truthy(RowAt(rows, k)) {
          RowsAsWrittenShowNothing(records, scriptPath, isTrue, k);
        }
      }
      SetBreakpoints(rows);
    }

    /** `updateSession` with the marker evidently intended: a row shows an
        enabled or disabled breakpoint exactly where a record of the
        document's script sits. */
    method UpdateSessionIntended(node: Option<string>, davPrefixLen: nat, records: seq<BreakpointRecord>, isTrue: string -> bool)
      modifies this
      ensures node.None? ==> breakpoints == []
      ensures node.Some? ==> breakpoints == Rows(records, SliceFrom(node.value, davPrefixLen), RowClass, isTrue)
      ensures node.Some? ==> forall k: nat ::
        Truthy(RowAt(breakpoints, k)) <==> exists j :: MarksRow(records, SliceFrom(node.value, davPrefixLen), k, j)
    {
      var rows: seq<Option<string>> := [];
      if node.Some? {
        var scriptPath := SliceFrom(node.value, davPrefixLen);
        rows := BuildRows(records, scriptPath, RowClass, isTrue);
        forall k: nat ensures Truthy(RowAt(rows, k)) <==> exists j :: MarksRow(records, scriptPath, k, j) {
          RowsShowRecords(records, scriptPath, isTrue, k);
        }
      }
      SetBreakpoints(rows);
    }
  }

  // ---------------------------------------------------------------------
  // Breakpoint records

  /** A `<breakpoint>` node of the breakpoint model. `line` is the row it
      was created with (the attribute is that number's decimal text). */
  datatype BreakpointRecord = BreakpointRecord(
    script: string, line: nat, text: string, lineoffset: int, content: string,
    enabled: string, scriptPath: Option<string>)

  /** `bool ? "" : "disabled "` after `" ace_breakpoint " + bool`, as the
      operators bind: the concatenation is the condition, and a non-empty
      string is truthy. */
  function RowClassAsWritten(enabled: bool): (c: string)
    ensures c == ""
  {
    if " ace_breakpoint " + (if enabled then "true" else "false") != "" then "" else "disabled "
  }

  /** The marker evidently meant: enabled or disabled breakpoint. */
  function RowClass(enabled: bool): (c: string)
    ensures enabled ==> c == EnabledClass
    ensures !enabled ==> c == DisabledClass
  {
    " ace_breakpoint " + (if enabled then "" else "disabled ")
  }

  /** The `rows` that `updateSession` builds: for each record of the script
      in document order, the marker at its line. */
  function Rows(records: seq<BreakpointRecord>, scriptPath: string, cls: bool -> string, isTrue: string -> bool)
    : seq<Option<string>>
  {
    if records == [] then []
    else
      var prev := Rows(records[..|records| - 1], scriptPath, cls, isTrue);
      var r := records[|records| - 1];
      if r.scriptPath == Some(scriptPath) then SetRow(prev, r.line, Some(cls(isTrue(r.enabled)))) else prev
  }

  /** A record of the script sits at row `k`. */
  predicate MarksRow(records: seq<BreakpointRecord>, scriptPath: string, k: nat, j: int)
  {
    0 <= j < |records| && records[j].scriptPath == Some(scriptPath) && records[j].line == k
  }

  /** Rows are set exactly at the lines of the script's records, each with
      the marker of the last such record. */
  lemma {:induction false} RowsAt(records: seq<BreakpointRecord>, scriptPath: string, cls: bool -> string,
                                  isTrue: string -> bool, k: nat)
    ensures var j := LastMark(records, scriptPath, k);
      RowAt(Rows(records, scriptPath, cls, isTrue), k) == if j == -1 then None else Some(cls(isTrue(records[j].enabled)))
    decreases |records|
  {
    if records != [] {
      var init := records[..|records| - 1];
      var last := records[|records| - 1];
      var prev := Rows(init, scriptPath, cls, isTrue);
      RowsAt(init, scriptPath, cls, isTrue, k);
      if !MarksRow(records, scriptPath, k, |records| - 1) {
        var j := LastMark(init, scriptPath, k);
        assert LastMark(records, scriptPath, k) == j;
        assert j != -1 ==> records[j] == init[j];
        if last.scriptPath == Some(scriptPath) {
          assert RowAt(Rows(records, scriptPath, cls, isTrue), k) == RowAt(SetRow(prev, last.line, Some(cls(isTrue(last.enabled)))), k);
        }
      }
    }
  }

  /** As written every row `updateSession` sets is empty, which the gutter
      reads as no breakpoint: the markers of a script's breakpoints vanish
      whenever its session is updated. */
  lemma RowsAsWrittenShowNothing(records: seq<BreakpointRecord>, scriptPath: string, isTrue: string -> bool, k: nat)
    ensures !Truthy(RowAt(Rows(records, scriptPath, RowClassAsWritten, isTrue), k))
  {
    var j := LastMark(records, scriptPath, k);
    RowsAt(records, scriptPath, RowClassAsWritten, isTrue, k);
  }

  /** With the intended marker, a row shows an enabled or disabled
      breakpoint exactly where one of the script's records sits, as its
      last record there says. */
  lemma RowsShowRecords(records: seq<BreakpointRecord>, scriptPath: string, isTrue: string -> bool, k: nat)
    ensures var m := RowAt(Rows(records, scriptPath, RowClass, isTrue), k);
      && (Truthy(m) <==> exists j :: MarksRow(records, scriptPath, k, j))
      && (Truthy(m) ==> m == Some(EnabledClass) || m == Some(DisabledClass))
  {
    var j := LastMark(records, scriptPath, k);
    RowsAt(records, scriptPath, RowClass, isTrue, k);
  }

  /** The last record of the script at row `k`, if any. */
  function LastMark(records: seq<BreakpointRecord>, scriptPath: string, k: nat): (j: int)
    ensures j == -1 ==> forall j' :: !MarksRow(records, scriptPath, k, j')
    ensures j != -1 ==> MarksRow(records, scriptPath, k, j) && forall j' :: j < j' ==> !MarksRow(records, scriptPath, k, j')
    decreases |records|
  {
    if records == [] then -1
    else if MarksRow(records, scriptPath, k, |records| - 1) then |records| - 1
    else
      var j := LastMark(records[..|records| - 1], scriptPath, k);
      assert forall j' :: MarksRow(records, scriptPath, k, j') && j' < |records| - 1 ==>
        MarksRow(records[..|records| - 1], scriptPath, k, j');
      j
  }

  /** The `for` loop of `updateSession`. */
  method BuildRows(records: seq<BreakpointRecord>, scriptPath: string, cls: bool -> string, isTrue: string -> bool)
    returns (rows: seq<Option<string>>)
    ensures rows == Rows(records, scriptPath, cls, isTrue)
  {
    rows := [];
    var i := 0;
    while i < |records|
      invariant 0 <= i <= |records|
      invariant rows == Rows(records[..i], scriptPath, cls, isTrue)
    {
      assert records[..i + 1][..i] == records[..i];
      var bp := records[i];
      if bp.scriptPath == Some(scriptPath) {
        rows := SetRow(rows, bp.line, Some(cls(isTrue(bp.enabled))));
      }
      i := i + 1;
    }
    assert records[..|records|] == records;
  }

  /** The text after the first "/workspace/" of a path, or the whole path
      when there is none. */
  function DisplayText(path: string): (t: string)
    ensures IndexOf(path, "/workspace/") == -1 ==> t == path
    ensures IndexOf(path, "/workspace/") != -1 ==>
      var k := IndexOf(path, "/workspace/");
      path == path[..k] + "/workspace/" + t && forall k' :: 0 <= k' < k ==> !OccursAt(path, "/workspace/", k')
  {
    var k := IndexOf(path, "/workspace/");
    if k > -1 then path[k + |"/workspace/"|..] else path
  }

  /** A path with one "/workspace/" marker displays as the part after it. */
  lemma DisplayTextAfterWorkspace(pre: string, rest: string)
    requires forall k :: 0 <= k < |pre| ==> !OccursAt(pre + "/workspace/" + rest, "/workspace/", k)
    ensures DisplayText(pre + "/workspace/" + rest) == rest
  {
    var path := pre + "/workspace/" + rest;
    assert path[|pre|..|pre| + |"/workspace/"|] == "/workspace/";
    assert OccursAt(path, "/workspace/", |pre|);
    assert path[|pre| + |"/workspace/"|..] == rest;
  }

  /** The record `toggleBreakpoint` creates for a row of a script. */
  function NewRecord(scriptName: string, path: string, row: nat, content: string): (r: BreakpointRecord)
    ensures r.script == scriptName && r.line == row && r.lineoffset == 0 && r.content == content
    ensures r.enabled == "true" && r.scriptPath.None?
    ensures r.text == DisplayText(path) + ":" + IntToString(row + 1)
    ensures ParseInt(r.text[|DisplayText(path)| + 1..]) == row + 1
  {
    var r := BreakpointRecord(scriptName, row, DisplayText(path) + ":" + IntToString(row + 1), 0, content, "true", None);
    assert r.text[|DisplayText(path)| + 1..] == IntToString(row + 1);
    IntToStringRoundTrip(row + 1);
    r
  }

  /** A record for the script and row. */
  predicate At(r: BreakpointRecord, scriptName: string, row: nat)
  {
    r.script == scriptName && r.line == row
  }

  predicate HasBreakpoint(records: seq<BreakpointRecord>, scriptName: string, row: nat)
  {
    exists j :: 0 <= j < |records| && At(records[j], scriptName, row)
  }

  /** No script has two records on one row. */
  predicate UniqueRows(records: seq<BreakpointRecord>)
  {
    forall i, j :: 0 <= i < j < |records| ==> !(records[i].script == records[j].script && records[i].line == records[j].line)
  }

  /** The first record for the script and row (the model's `queryNode`). */
  function FindIn(records: seq<BreakpointRecord>, scriptName: string, row: nat): (r: Option<nat>)
    ensures r.Some? ==> r.value < |records| && At(records[r.value], scriptName, row)
    ensures r.None? <==> !HasBreakpoint(records, scriptName, row)
  {
    if records == [] then None
    else if At(records[0], scriptName, row) then Some(0)
    else match FindIn(records[1..], scriptName, row) {
      case None =>
        assert forall j :: 1 <= j < |records| ==> records[j] == records[1..][j - 1];
        None
      case Some(i) => Some(i + 1)
    }
  }

  /** The breakpoint records after `toggleBreakpoint(script, row, content)`. */
  function Toggled(records: seq<BreakpointRecord>, scriptName: string, path: string, row: nat, content: string)
    : seq<BreakpointRecord>
  {
    match FindIn(records, scriptName, row) {
      case Some(i) => records[..i] + records[i + 1..]
      case None => records + [NewRecord(scriptName, path, row, content)]
    }
  }

  /** The first matching record is the one `FindIn` picks. */
  lemma {:induction false} FindInIs(records: seq<BreakpointRecord>, scriptName: string, row: nat, i: nat)
    requires i < |records| && At(records[i], scriptName, row)
    requires forall j :: 0 <= j < i ==> !At(records[j], scriptName, row)
    ensures FindIn(records, scriptName, row) == Some(i)
    decreases i
  {
    if i > 0 {
      FindInIs(records[1..], scriptName, row, i - 1);
    }
  }

  /** Removing the record at `i` removes exactly its (script, row). */
  lemma RemovedRecord(records: seq<BreakpointRecord>, i: nat, s: string, l: nat)
    requires UniqueRows(records) && i < |records|
    ensures var r := records[..i] + records[i + 1..];
      && UniqueRows(r)
      && (HasBreakpoint(r, s, l) <==> HasBreakpoint(records, s, l) && !At(records[i], s, l))
  {
    var r := records[..i] + records[i + 1..];
    RemovedAt(records, i);
    if HasBreakpoint(records, s, l) && !At(records[i], s, l) {
      var j :| 0 <= j < |records| && At(records[j], s, l);
      if j < i { assert At(r[j], s, l); } else { assert At(r[j - 1], s, l); }
    }
    if HasBreakpoint(r, s, l) {
      var j :| 0 <= j < |r| && At(r[j], s, l);
      if j < i { assert At(records[j], s, l); } else { assert At(records[j + 1], s, l); }
    }
  }

  /** Where the records after a removal come from; they stay unique. */
  lemma RemovedAt(records: seq<BreakpointRecord>, i: nat)
    requires UniqueRows(records) && i < |records|
    ensures var r := records[..i] + records[i + 1..];
      && |r| == |records| - 1
      && (forall j :: 0 <= j < |r| ==> r[j] == if j < i then records[j] else records[j + 1])
      && UniqueRows(r)
  {
    var r := records[..i] + records[i + 1..];
    assert forall j :: 0 <= j < |r| ==> r[j] == if j < i then records[j] else records[j + 1];
  }

  /** Appending a record adds exactly its (script, row). */
  lemma AppendedRecord(records: seq<BreakpointRecord>, n: BreakpointRecord, s: string, l: nat)
    requires UniqueRows(records) && !HasBreakpoint(records, n.script, n.line)
    ensures var r := records + [n];
      && UniqueRows(r)
      && (HasBreakpoint(r, s, l) <==> HasBreakpoint(records, s, l) || At(n, s, l))
  {
    var r := records + [n];
    assert At(r[|r| - 1], n.script, n.line);
    if HasBreakpoint(records, s, l) {
      var j :| 0 <= j < |records| && At(records[j], s, l);
      assert At(r[j], s, l);
    }
    if HasBreakpoint(r, s, l) && !At(n, s, l) {
      var j :| 0 <= j < |r| && At(r[j], s, l);
      assert At(records[j], s, l);
    }
    forall i | 0 <= i < |records| ensures !(r[i].script == n.script && r[i].line == n.line) {
      assert !At(records[i], n.script, n.line);
    }
  }

  /** Toggling flips whether the row of the script has a breakpoint, keeps
      every other (script, row), and keeps rows unique. */
  lemma ToggleFlips(records: seq<BreakpointRecord>, scriptName: string, path: string, row: nat, content: string,
                    s: string, l: nat)
    requires UniqueRows(records)
    ensures var r := Toggled(records, scriptName, path, row, content);
      && UniqueRows(r)
      && (HasBreakpoint(r, scriptName, row) <==> !HasBreakpoint(records, scriptName, row))
      && (!(s == scriptName && l == row) ==> (HasBreakpoint(r, s, l) <==> HasBreakpoint(records, s, l)))
      && (!HasBreakpoint(records, scriptName, row) ==> r[|r| - 1] == NewRecord(scriptName, path, row, content))
  {
    match FindIn(records, scriptName, row) {
      case Some(i) =>
        RemovedRecord(records, i, scriptName, row);
        RemovedRecord(records, i, s, l);
      case None =>
        var n := NewRecord(scriptName, path, row, content);
        AppendedRecord(records, n, scriptName, row);
        AppendedRecord(records, n, s, l);
    }
  }

  /** "true" or "false", as `setAttribute` writes a boolean. */
  function BoolText(b: bool): string
  {
    if b then "true" else "false"
  }

  /** `apf.isTrue` reads "true" as true and "false" as false. */
  ghost predicate ReadsBoolText(isTrue: string -> bool)
  {
    isTrue("true") && !isTrue("false")
  }

  /** After `setBreakPointEnabled`, the record's marker in an updated
      session shows the state that was set. */
  lemma EnabledShowsInGutter(isTrue: string -> bool, value: bool)
    requires ReadsBoolText(isTrue)
    ensures RowClass(isTrue(BoolText(value))) == if value then EnabledClass else DisabledClass
  {
  }

  /** The breakpoint model: its `<breakpoint>` records in document order. */
  class BreakpointModel {
    var records: seq<BreakpointRecord>

    ghost predicate Valid()
      reads this
    {
      UniqueRows(records)
    }

    constructor ()
      ensures Valid() && records == []
    {
      records := [];
    }

    /** The `queryNode` of `toggleBreakpoint`, as a search. */
    method FindBreakpoint(scriptName: string, row: nat) returns (r: Option<nat>)
      ensures r == FindIn(records, scriptName, row)
    {
      var i := 0;
      while i < |records|
        invariant 0 <= i <= |records|
        invariant forall j :: 0 <= j < i ==> !At(records[j], scriptName, row)
      {
        if records[i].script == scriptName && records[i].line == row {
          FindInIs(records, scriptName, row, i);
          return Some(i);
        }
        i := i + 1;
      }
      return None;
    }

    /** `toggleBreakpoint`: removes the script's breakpoint at the row, or
        appends a new one. */
    method Toggle(scriptName: string, path: string, row: nat, content: string)
      requires Valid()
      modifies this
      ensures Valid()
      ensures records == Toggled(old(records), scriptName, path, row, content)
    {
      ToggleFlips(records, scriptName, path, row, content, scriptName, row);
      var bp := FindBreakpoint(scriptName, row);
      if bp.Some? {
        records := records[..bp.value] + records[bp.value + 1..];
      } else {
        records := records + [NewRecord(scriptName, path, row, content)];
      }
    }

    /** `setBreakPointEnabled`: only the record's `enabled` attribute
        changes, to "true" or "false". */
    method SetBreakPointEnabled(i: nat, value: bool)
      requires Valid() && i < |records|
      modifies this
      ensures Valid()
      ensures records == old(records)[i := old(records)[i].(enabled := BoolText(value))]
    {
      records := records[i := records[i].(enabled := if value then "true" else "false")];
    }
  }

  // ---------------------------------------------------------------------
  // $syncTree

  /** A script the debugger knows about. */
  datatype DbgFile = DbgFile(scriptname: string, scriptid: string)

  /** A file node of the tree or a tab: its `scriptname` and `scriptid`
      attributes (`None` when absent). */
  datatype FileNode = FileNode(name: string, scriptname: Option<string>, scriptid: Option<string>)

  /** `this.paths` after the first loop: the debugger's scripts under the
      workspace directory, a later one replacing an earlier one of the same
      name. */
  function Indexed(paths: map<string, DbgFile>, dbgFiles: seq<DbgFile>, workspaceDir: string): map<string, DbgFile>
  {
    if dbgFiles == [] then paths
    else
      var prev := Indexed(paths, dbgFiles[..|dbgFiles| - 1], workspaceDir);
      var f := dbgFiles[|dbgFiles| - 1];
      if IndexOf(f.scriptname, workspaceDir) != 0 then prev else prev[f.scriptname := f]
  }

  /** The index holds a name exactly when it held it before or a script
      of that name lies under the workspace directory; its entry is then
      the last such script. */
  lemma {:induction false} IndexedHolds(paths: map<string, DbgFile>, dbgFiles: seq<DbgFile>, workspaceDir: string, name: string)
    ensures var ix := Indexed(paths, dbgFiles, workspaceDir);
      && (name in ix <==> name in paths || exists j :: 0 <= j < |dbgFiles| && dbgFiles[j].scriptname == name && workspaceDir <= name)
      && (forall j :: (0 <= j < |dbgFiles| && dbgFiles[j].scriptname == name && workspaceDir <= name
            && (forall j' :: j < j' < |dbgFiles| ==> dbgFiles[j'].scriptname != name)) ==> ix[name] == dbgFiles[j])
    decreases |dbgFiles|
  {
    if dbgFiles != [] {
      var init := dbgFiles[..|dbgFiles| - 1];
      IndexedHolds(paths, init, workspaceDir, name);
      IndexOfZeroIsPrefix(dbgFiles[|dbgFiles| - 1].scriptname, workspaceDir);
      assert forall j :: 0 <= j < |init| ==> init[j] == dbgFiles[j];
    }
  }

  /** The key a file is looked up under: a missing `scriptname` becomes
      the property name "null". */
  function LookupKey(f: FileNode): string
  {
    if f.scriptname.Some? then f.scriptname.value else "null"
  }

  /** A file after the second loop: it takes the `scriptid` of the script
      its name maps to. */
  function SyncedFile(f: FileNode, paths: map<string, DbgFile>): (g: FileNode)
    ensures g.name == f.name && g.scriptname == f.scriptname
    ensures LookupKey(f) in paths ==> g.scriptid == Some(paths[LookupKey(f)].scriptid)
    ensures LookupKey(f) !in paths ==> g == f
  {
    if LookupKey(f) in paths then f.(scriptid := Some(paths[LookupKey(f)].scriptid)) else f
  }

  /** The debugger plugin's state that `$syncTree` uses. */
  /** Some debugger script lies under the workspace directory. */
  predicate HasWorkspaceScript(dbgFiles: seq<DbgFile>, workspaceDir: string)
  {
    exists k :: 0 <= k < |dbgFiles| && IndexOf(dbgFiles[k].scriptname, workspaceDir) == 0
  }

  /** The debugger plugin's state for `$syncTree`. The file never assigns
      `this.paths`; `pathsSet` says whether some other code has set it up
      (the index then starts as `paths`), and without it the property is
      `undefined`. */
  class Debugger {
    var inSync: bool
    var pathsSet: bool
    var paths: map<string, DbgFile>

    constructor (initialPaths: Option<map<string, DbgFile>>)
      ensures !inSync && pathsSet == initialPaths.Some?
      ensures paths == if initialPaths.Some? then initialPaths.value else map[]
    {
      inSync := false;
      pathsSet := initialPaths.Some?;
      paths := if initialPaths.Some? then initialPaths.value else map[];
    }

    /** `$syncTree`: unless a run is under way, index the debugger's
        workspace scripts, then give every tab and tree file the script id
        of its script. `files` holds the tab models followed by the tree's
        file nodes. Without `this.paths` the first workspace script, or else
        the first file, throws a TypeError, and `inSync` stays set, so every
        later call returns at once. */
    method SyncTree(dbgFiles: seq<DbgFile>, workspaceDir: string, files: array<FileNode>) returns (thrown: bool)
      modifies this`inSync, this`paths, files
      ensures old(inSync) ==> !thrown && inSync && paths == old(paths) && files[..] == old(files[..])
      ensures !old(inSync) && !pathsSet ==>
        && thrown == (HasWorkspaceScript(dbgFiles, workspaceDir) || files.Length > 0)
        && inSync == thrown && paths == old(paths) && files[..] == old(files[..])
      ensures !old(inSync) && pathsSet ==>
        && !thrown && !inSync
        && paths == Indexed(old(paths), dbgFiles, workspaceDir)
        && forall i :: 0 <= i < files.Length ==> files[i] == SyncedFile(old(files[i]), paths)
    {
      thrown := false;
      if inSync {
        return;
      }
      inSync := true;
      var i := 0;
      while i < |dbgFiles|
        invariant 0 <= i <= |dbgFiles|
        invariant inSync
        invariant pathsSet ==> paths == Indexed(old(paths), dbgFiles[..i], workspaceDir)
        invariant !pathsSet ==> paths == old(paths)
        invariant !pathsSet ==> forall k :: 0 <= k < i ==> IndexOf(dbgFiles[k].scriptname, workspaceDir) != 0
        invariant files[..] == old(files[..])
      {
        assert dbgFiles[..i + 1][..i] == dbgFiles[..i];
        var dbgFile := dbgFiles[i];
        var name := dbgFile.scriptname;
        if IndexOf(name, workspaceDir) == 0 {
          if !pathsSet {
            return true;
          }
          paths := paths[name := dbgFile];
        }
        i := i + 1;
      }
      assert dbgFiles[..|dbgFiles|] == dbgFiles;
      if !pathsSet && files.Length > 0 {
        return true;
      }
      var j := 0;
      while j < files.Length
        invariant 0 <= j <= files.Length
        invariant pathsSet ==> paths == Indexed(old(paths), dbgFiles, workspaceDir)
        invariant !pathsSet ==> paths == old(paths) && files.Length == 0
        invariant forall k :: 0 <= k < j ==> files[k] == SyncedFile(old(files[k]), paths)
        invariant forall k :: j <= k < files.Length ==> files[k] == old(files[k])
      {
        var file := files[j];
        var key := LookupKey(file);
        if key in paths {
          files[j] := file.(scriptid := Some(paths[key].scriptid));
        }
        j := j + 1;
      }
      inSync := false;
    }
  }

}
