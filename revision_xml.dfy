/** `getXmlStringFromRevision` and the ordering loop of `populateModel`:
    how a revision (or a compact group record) becomes one `<revision>`
    element of the history list, and in which order the list shows them. */
module RevisionXml {
  import opened Wrappers
  import opened Strings
  import opened RevisionModel

  /** `"" + b` for a boolean. */
  function BoolString(b: bool): string
  {
    if b then "true" else "false"
  }

  /** `revision.restoring || ""`: empty when the revision restores nothing
      (missing or 0), and otherwise the decimal id of the restored revision. */
  function RestoringAttr(r: Option<int>): (s: string)
    ensures s == "" <==> !(r.Some? && r.value != 0)
    ensures s != "" ==> ParseInt(s) == r.value
  {
    if r.Some? && r.value != 0 then
      IntToStringRoundTrip(r.value);
      IntToString(r.value)
    else ""
  }

  /** `contributorToXml(c)`. */
  function ContributorXml(c: string): string
  {
    "<contributor email='" + c + "' />"
  }

  /** `parts.map(f).join("")`. */
  function JoinMapped(parts: seq<string>, f: string -> string): string
  {
    if parts == [] then "" else f(parts[0]) + JoinMapped(parts[1..], f)
  }

  lemma {:induction false} JoinMappedAppend(a: seq<string>, b: seq<string>, f: string -> string)
    ensures JoinMapped(a + b, f) == JoinMapped(a, f) + JoinMapped(b, f)
    decreases |a|
  {
    if a != [] {
      assert (a + b)[0] == a[0];
      assert (a + b)[1..] == a[1..] + b;
      JoinMappedAppend(a[1..], b, f);
    } else {
      assert a + b == b;
    }
  }

  /** `contributors.map(contributorToXml).join("")`, or "" for no
      contributors: empty exactly when there is nobody to list. */
  function ContributorsXml(cs: seq<string>): (s: string)
    ensures s == "" <==> cs == []
  {
    if cs != [] then assert |ContributorXml(cs[0])| > 0; JoinMapped(cs, ContributorXml) else ""
  }

  /** Joining is a homomorphism: the element of a concatenated contributor
      list is the two elements' concatenation. */
  lemma ContributorsXmlAppend(a: seq<string>, b: seq<string>)
    ensures ContributorsXml(a + b) == ContributorsXml(a) + ContributorsXml(b)
  {
    JoinMappedAppend(a, b, ContributorXml);
  }

  /** `getXmlStringFromRevision(revision)`, given the formatted date: the
      opening of the element and the `id` attribute, then the rest. */
  function RevisionXmlString(info: Info, name: string): string
  {
    "<revision id='" + IntToString(info.ts) + AfterId(info, name)
  }

  /** The element after the id digits: the other attributes and the
      contributor list. */
  function AfterId(info: Info, name: string): (s: string)
    ensures |s| > 0 && s[0] == '\''
  {
    "' name='" + name + "' "
      + "silentsave='" + BoolString(info.silentsave) + "' "
      + "restoring='" + RestoringAttr(info.restoring) + "'>"
      + "<contributors>" + ContributorsXml(info.contributors) + "</contributors></revision>"
  }

  /** The `id` attribute of the element reads back as the revision's
      timestamp: it is the first attribute and is closed by a quote. */
  lemma RevisionXmlId(info: Info, name: string)
    ensures var x := RevisionXmlString(info, name);
      var n := |IntToString(info.ts)|;
      && 14 + n < |x|
      && x[..14] == "<revision id='"
      && ParseInt(x[14..14 + n]) == info.ts
      && x[14 + n] == '\''
  {
    var id := IntToString(info.ts);
    var rest := AfterId(info, name);
    var x := "<revision id='" + id + rest;
    assert |"<revision id='"| == 14;
    assert x[..14] == "<revision id='";
    assert x[14..14 + |id|] == id;
    assert x[14 + |id|] == rest[0];
    IntToStringRoundTrip(info.ts);
  }

  /** The records `populateModel` lists: the compact records when the
      compact view is on and they exist, and otherwise every revision (none
      when the revision set has not arrived). */
  function ListedInfos(o: RevObj): (m: map<int, Info>)
    ensures o.useCompactList && o.compactRevisions.Some? ==> m.Keys == o.compactRevisions.value.Keys
    ensures !(o.useCompactList && o.compactRevisions.Some?) && o.allRevisions.Some? ==> m.Keys == o.allRevisions.value.Keys
    ensures !(o.useCompactList && o.compactRevisions.Some?) && o.allRevisions.None? ==> m == map[]
    ensures o.useCompactList && o.compactRevisions.Some? ==>
      forall k :: k in m ==> m[k] == o.compactRevisions.value[k].info
    ensures !(o.useCompactList && o.compactRevisions.Some?) && o.allRevisions.Some? ==>
      forall k :: k in m ==> m[k] == o.allRevisions.value[k].info
  {
    if o.useCompactList && o.compactRevisions.Some? then
      map k | k in o.compactRevisions.value :: o.compactRevisions.value[k].info
    else if o.allRevisions.Some? then
      map k | k in o.allRevisions.value :: o.allRevisions.value[k].info
    else map[]
  }

  function Reversed(s: seq<int>): (r: seq<int>)
    ensures |r| == |s|
  {
    if s == [] then [] else Reversed(s[1..]) + [s[0]]
  }

  lemma {:induction false} ReversedAt(s: seq<int>, k: int)
    requires 0 <= k < |s|
    ensures Reversed(s)[k] == s[|s| - 1 - k]
    decreases |s|
  {
    if k < |s| - 1 {
      ReversedAt(s[1..], k);
    }
  }

  /** Reading ascending timestamps from the end lists each of them once, in
      strictly descending order. */
  lemma ReversedDescending(s: seq<int>)
    requires StrictlySorted(s)
    ensures forall i, j :: 0 <= i < j < |Reversed(s)| ==> Reversed(s)[i] > Reversed(s)[j]
    ensures forall x :: x in Reversed(s) <==> x in s
  {
    var r := Reversed(s);
    forall i, j | 0 <= i < j < |r| ensures r[i] > r[j] {
      ReversedAt(s, i);
      ReversedAt(s, j);
    }
    forall x ensures x in r <==> x in s {
      if x in r {
        var k :| 0 <= k < |r| && r[k] == x;
        ReversedAt(s, k);
      }
      if x in s {
        var k :| 0 <= k < |s| && s[k] == x;
        ReversedAt(s, |s| - 1 - k);
      }
    }
  }

  /** The elements of the listed records in the given order. */
  function ListXml(infos: map<int, Info>, order: seq<int>, friendly: int -> string): string
    requires forall t :: t in order ==> t in infos
  {
    if order == [] then ""
    else
      var t := order[|order| - 1];
      ListXml(infos, order[..|order| - 1], friendly) + RevisionXmlString(infos[t], friendly(infos[t].ts))
  }

  /** `populateModel(revObj, model)`: nothing is loaded for a new or non-code
      page or without a revision object; otherwise the listed records are
      emitted newest first, each exactly once. */
  method PopulateModel(revObj: Option<RevObj>, pageIsListable: bool, sortKeys: set<int> -> seq<int>, friendly: int -> string)
    returns (loaded: Option<string>, order: seq<int>)
    requires SortsKeys(sortKeys)
    ensures !pageIsListable || revObj.None? ==> loaded.None? && order == []
    ensures pageIsListable && revObj.Some? ==>
      var infos := ListedInfos(revObj.value);
      && (forall x :: x in order <==> x in infos)
      && (forall i, j :: 0 <= i < j < |order| ==> order[i] > order[j])
      && order == Reversed(sortKeys(infos.Keys))
      && loaded == Some("<revisions>" + ListXml(infos, order, friendly) + "</revisions>")
  {
    if !pageIsListable || revObj.None? {
      return None, [];
    }
    var revisions := ListedInfos(revObj.value);
    var timestamps := sortKeys(revisions.Keys);
    assert IsSortedKeyList(timestamps, revisions.Keys);
    var revsXML := "";
    order := [];
    var i := |timestamps|;
    while i > 0
      invariant 0 <= i <= |timestamps|
      invariant order == Reversed(timestamps[i..])
      invariant forall t :: t in order ==> t in revisions
      invariant revsXML == ListXml(revisions, order, friendly)
    {
      i := i - 1;
      var t := timestamps[i];
      assert timestamps[i..][1..] == timestamps[i + 1..];
      assert (order + [t])[..|order|] == order;
      revsXML := revsXML + RevisionXmlString(revisions[t], friendly(revisions[t].ts));
      order := order + [t];
    }
    assert timestamps[0..] == timestamps;
    ReversedDescending(timestamps);
    loaded := Some("<revisions>" + revsXML + "</revisions>");
  }

}
