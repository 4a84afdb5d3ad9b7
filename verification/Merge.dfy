// The k-way merge of sorted runs given newest first: the smallest key under any cursor
// is emitted from the newest run that holds it, and consumed everywhere.
module Merge {
  import opened Keys
  import opened Records
  import opened Layers

  // ----- the newest-first overlay of sorted lists -----

  function OverlayOf(lists: seq<seq<Record>>): map<Key, Body> {
    if lists == [] then map[] else OverlayOf(lists[1..]) + ToMap(lists[0])
  }

  // The same overlay the tables built from these lists have.
  lemma {:induction false} OverlayOfTables(lists: seq<seq<Record>>, tables: seq<Table>)
    requires |lists| == |tables| && forall i :: 0 <= i < |lists| ==> tables[i].recs == ToMap(lists[i])
    ensures OverlayOf(lists) == Overlay(tables)
  {
    if lists != [] {
      OverlayOfTables(lists[1..], tables[1..]);
    }
  }

  ghost predicate AllAscending(lists: seq<seq<Record>>) {
    forall j :: 0 <= j < |lists| ==> Ascending(lists[j])
  }

  lemma {:induction false} OverlayOfKeys(lists: seq<seq<Record>>, k: Key)
    ensures k in OverlayOf(lists) <==> exists j :: 0 <= j < |lists| && k in ToMap(lists[j])
  {
    if lists != [] {
      OverlayOfKeys(lists[1..], k);
      assert forall j :: 0 < j < |lists| ==> lists[j] == lists[1..][j - 1];
      if k in OverlayOf(lists[1..]) {
        var j :| 0 <= j < |lists[1..]| && k in ToMap(lists[1..][j]);
        assert k in ToMap(lists[j + 1]);
      }
    }
  }

  // The first list holding a key decides its record.
  lemma {:induction false} OverlayOfAt(lists: seq<seq<Record>>, j: nat, k: Key)
    requires j < |lists| && k in ToMap(lists[j])
    requires forall i :: 0 <= i < j ==> k !in ToMap(lists[i])
    ensures k in OverlayOf(lists) && OverlayOf(lists)[k] == ToMap(lists[j])[k]
  {
    if j > 0 {
      OverlayOfAt(lists[1..], j - 1, k);
    }
  }

  // Heads: what the cursors see.
  predicate HeadIs(list: seq<Record>, k: Key) {
    list != [] && list[0].key == k
  }

  ghost predicate IsSmallestHead(lists: seq<seq<Record>>, k: Key) {
    && (exists j :: 0 <= j < |lists| && HeadIs(lists[j], k))
    && (forall j :: 0 <= j < |lists| && lists[j] != [] ==> AtMost(k, lists[j][0].key))
  }

  // A key below or at a list's head is in the list only as its head.
  lemma OnlyAtHead(list: seq<Record>, k: Key)
    requires Ascending(list) && (list != [] ==> AtMost(k, list[0].key))
    ensures k in ToMap(list) <==> HeadIs(list, k)
    ensures HeadIs(list, k) ==> ToMap(list)[k] == list[0].body && ToMap(list[1..]) == ToMap(list) - {k}
  {
    hide Less;
    KeyOrder();
    if list != [] {
      ToMapCons(list);
    }
  }

  lemma SmallestHeadIsLeast(lists: seq<seq<Record>>, k: Key)
    requires AllAscending(lists) && IsSmallestHead(lists, k)
    ensures IsLeast(k, OverlayOf(lists).Keys)
  {
    hide Less;
    KeyOrder();
    var j :| 0 <= j < |lists| && HeadIs(lists[j], k);
    OnlyAtHead(lists[j], k);
    OverlayOfKeys(lists, k);
    forall x | x in OverlayOf(lists) ensures AtMost(k, x) {
      OverlayOfKeys(lists, x);
      var i :| 0 <= i < |lists| && x in ToMap(lists[i]);
      if lists[i] != [] {
        ToMapCons(lists[i]);
      }
    }
  }

  function Consumed(list: seq<Record>, k: Key): seq<Record> {
    if HeadIs(list, k) then list[1..] else list
  }

  // Consuming the smallest key everywhere removes exactly that key from the overlay.
  lemma {:induction false} ConsumeRemoves(lists: seq<seq<Record>>, next: seq<seq<Record>>, k: Key)
    requires AllAscending(lists)
    requires forall j :: 0 <= j < |lists| && lists[j] != [] ==> AtMost(k, lists[j][0].key)
    requires |next| == |lists| && forall j :: 0 <= j < |lists| ==> next[j] == Consumed(lists[j], k)
    ensures OverlayOf(next) == OverlayOf(lists) - {k}
  {
    hide Less, ToMap, Ascending;
    if lists != [] {
      ConsumeRemoves(lists[1..], next[1..], k);
      ConsumedMap(lists[0], k);
      assert next[0] == Consumed(lists[0], k);
      DropFromBoth(OverlayOf(lists[1..]), ToMap(lists[0]), k);
    }
  }

  lemma ConsumedMap(list: seq<Record>, k: Key)
    requires Ascending(list) && (list != [] ==> AtMost(k, list[0].key))
    ensures ToMap(Consumed(list, k)) == ToMap(list) - {k}
  {
    hide Less, ToMap, Ascending;
    OnlyAtHead(list, k);
  }

  lemma DropFromBoth(a: map<Key, Body>, b: map<Key, Body>, k: Key)
    ensures (a + b) - {k} == (a - {k}) + (b - {k})
  {
  }

  // ----- the cursors -----

  ghost function Rest(lists: seq<seq<Record>>, cur: seq<nat>): seq<seq<Record>>
    requires |cur| == |lists| && forall j :: 0 <= j < |cur| ==> cur[j] <= |lists[j]|
  {
    seq(|lists|, j requires 0 <= j < |lists| => lists[j][cur[j]..])
  }

  ghost predicate CursorsOk(lists: seq<seq<Record>>, cur: array<nat>)
    reads cur
  {
    cur.Length == |lists| && forall j :: 0 <= j < |lists| ==> cur[j] <= |lists[j]|
  }

  method SmallestHead(lists: seq<seq<Record>>, cur: array<nat>) returns (any: bool, minKey: Key)
    requires CursorsOk(lists, cur)
    ensures any ==> IsSmallestHead(Rest(lists, cur[..]), minKey)
    ensures !any ==> forall j :: 0 <= j < |lists| ==> Rest(lists, cur[..])[j] == []
  {
    hide Less;
    KeyOrder();
    any, minKey := false, [];
    ghost var rest := Rest(lists, cur[..]);
    var j := 0;
    while j < |lists|
      invariant 0 <= j <= |lists|
      invariant any ==> exists i :: 0 <= i < j && HeadIs(rest[i], minKey)
      invariant any ==> forall i :: 0 <= i < j && rest[i] != [] ==> AtMost(minKey, rest[i][0].key)
      invariant !any ==> forall i :: 0 <= i < j ==> rest[i] == []
    {
      if cur[j] < |lists[j]| {
        var k := lists[j][cur[j]].key;
        assert HeadIs(rest[j], k);
        if !any || Less(k, minKey) {
          minKey := k;
          any := true;
        }
      }
      j := j + 1;
    }
  }

  method NewestAt(lists: seq<seq<Record>>, cur: array<nat>, minKey: Key) returns (newest: nat)
    requires CursorsOk(lists, cur) && IsSmallestHead(Rest(lists, cur[..]), minKey)
    ensures newest < |lists| && cur[newest] < |lists[newest]| && HeadIs(Rest(lists, cur[..])[newest], minKey)
    ensures forall i :: 0 <= i < newest ==> !HeadIs(Rest(lists, cur[..])[i], minKey)
  {
    ghost var rest := Rest(lists, cur[..]);
    ghost var w :| 0 <= w < |lists| && HeadIs(rest[w], minKey);
    newest := 0;
    while !(cur[newest] < |lists[newest]| && lists[newest][cur[newest]].key == minKey)
      invariant newest <= w
      invariant forall i :: 0 <= i < newest ==> !HeadIs(rest[i], minKey)
      decreases w - newest
    {
      assert !HeadIs(rest[newest], minKey);
      newest := newest + 1;
    }
  }

  method Advance(lists: seq<seq<Record>>, cur: array<nat>, minKey: Key)
    requires CursorsOk(lists, cur)
    modifies cur
    ensures CursorsOk(lists, cur)
    ensures forall j :: 0 <= j < |lists| ==>
              Rest(lists, cur[..])[j] == Consumed(Rest(lists, old(cur[..]))[j], minKey)
  {
    ghost var before := cur[..];
    var j := 0;
    while j < |lists|
      invariant 0 <= j <= |lists| && CursorsOk(lists, cur)
      invariant forall i :: j <= i < |lists| ==> cur[i] == before[i]
      invariant forall i :: 0 <= i < j ==> lists[i][cur[i]..] == Consumed(lists[i][before[i]..], minKey)
    {
      if cur[j] < |lists[j]| && lists[j][cur[j]].key == minKey {
        assert lists[j][before[j]..][1..] == lists[j][before[j] + 1..];
        cur[j] := cur[j] + 1;
      }
      j := j + 1;
    }
  }

  // ----- merge_records -----

  function Keep(m: map<Key, Body>, drop: bool): map<Key, Body> {
    if drop then DropDeleted(m) else m
  }

  // What remains to be merged and what has been emitted make up the result.
  ghost predicate Progress(all: map<Key, Body>, rest: map<Key, Body>, out: seq<Record>, drop: bool) {
    && Ascending(out)
    && (forall x, y :: x in ToMap(out) && y in rest ==> Less(x, y))
    && Keep(all, drop) == Keep(rest, drop) + ToMap(out)
  }

  lemma {:induction false} AscendingSnoc(s: seq<Record>, r: Record)
    requires Ascending(s) && forall x :: x in ToMap(s) ==> Less(x, r.key)
    ensures Ascending(s + [r]) && ToMap(s + [r]) == ToMap(s)[r.key := r.body]
  {
    hide Less;
    var t := s + [r];
    forall i, j | 0 <= i < j < |t| ensures Less(t[i].key, t[j].key) {
      ToMapAt(s, i);
    }
    assert t[..|t| - 1] == s;
  }

  lemma KeepWithout(m: map<Key, Body>, drop: bool, k: Key)
    requires k in m
    ensures Keep(m - {k}, drop) == Keep(m, drop) - {k}
    ensures drop && m[k] == Deleted ==> k !in Keep(m, drop)
    ensures !(drop && m[k] == Deleted) ==> k in Keep(m, drop) && Keep(m, drop)[k] == m[k]
  {
  }

  lemma MoveKey(all: map<Key, Body>, a: map<Key, Body>, b: map<Key, Body>, k: Key)
    requires all == a + b && k in a && k !in b
    ensures all == (a - {k}) + b[k := a[k]]
  {
  }

  lemma EmitKeepsProgress(all: map<Key, Body>, rest: map<Key, Body>, out: seq<Record>, drop: bool, k: Key)
    requires Progress(all, rest, out, drop) && IsLeast(k, rest.Keys)
    ensures var out' := if drop && rest[k] == Deleted then out else out + [Record(k, rest[k])];
            Progress(all, rest - {k}, out', drop)
  {
    hide Less, ToMap, Ascending, Keep;
    KeyOrder();
    KeepWithout(rest, drop, k);
    if !(drop && rest[k] == Deleted) {
      AscendingSnoc(out, Record(k, rest[k]));
      MoveKey(Keep(all, drop), Keep(rest, drop), ToMap(out), k);
    } else {
      assert Keep(rest - {k}, drop) == Keep(rest, drop);
    }
  }

  // The merge ends, its output is strictly ascending, and as a map it is the newest-first
  // overlay of the inputs, minus exactly the deleted keys if tombstones are dropped.
  method MergeRecords(inputs: seq<seq<Record>>, drop: bool) returns (out: seq<Record>)
    requires AllAscending(inputs)
    ensures Ascending(out) && ToMap(out) == Keep(OverlayOf(inputs), drop)
    ensures out == Listing(Keep(OverlayOf(inputs), drop))
  {
    hide Less, ToMap, OverlayOf, Ascending, Progress, IsLeast, Rest, AllAscending;
    var cur := new nat[|inputs|](j => 0);
    out := [];
    ghost var all := OverlayOf(inputs);
    ghost var rest := inputs;
    AtTheStart(inputs, cur);
    StartProgress(all, drop);
    while true
      invariant CursorsOk(inputs, cur) && rest == Rest(inputs, cur[..])
      invariant AllAscending(rest) && Progress(all, OverlayOf(rest), out, drop)
      decreases |OverlayOf(rest)|
    {
      var rec := TakeSmallest(inputs, cur);
      if rec == None {
        break;
      }
      EmitKeepsProgress(all, OverlayOf(rest), out, drop, rec.value.key);
      LeastIsMember(OverlayOf(rest), rec.value.key);
      rest := Rest(inputs, cur[..]);
      if !(drop && rec.value.body == Deleted) {
        out := out + [rec.value];
      }
    }
    FinishProgress(all, OverlayOf(rest), out, drop);
    ListingUnique(out);
  }

  lemma StartProgress(all: map<Key, Body>, drop: bool)
    ensures Progress(all, all, [], drop)
  {
    assert Keep(all, drop) == Keep(all, drop) + ToMap([]);
  }

  lemma {:induction false} EmptyOverlay(lists: seq<seq<Record>>)
    requires forall j :: 0 <= j < |lists| ==> lists[j] == []
    ensures OverlayOf(lists) == map[]
  {
    if lists != [] {
      assert lists[0] == [];
      EmptyOverlay(lists[1..]);
    }
  }

  lemma FinishProgress(all: map<Key, Body>, rest: map<Key, Body>, out: seq<Record>, drop: bool)
    requires Progress(all, rest, out, drop) && rest == map[]
    ensures Ascending(out) && ToMap(out) == Keep(all, drop)
  {
    hide Less, ToMap, Ascending;
    assert Keep(map[], drop) + ToMap(out) == ToMap(out);
  }

  lemma LeastIsMember(m: map<Key, Body>, k: Key)
    requires IsLeast(k, m.Keys)
    ensures k in m && |m - {k}| < |m|
  {
    MapShrinks(m, k);
  }

  lemma AtTheStart(lists: seq<seq<Record>>, cur: array<nat>)
    requires cur.Length == |lists| && forall j :: 0 <= j < |lists| ==> cur[j] == 0
    ensures CursorsOk(lists, cur) && Rest(lists, cur[..]) == lists
  {
    assert forall j :: 0 <= j < |lists| ==> lists[j][0..] == lists[j];
  }

  // One round of the merge: the smallest key under any cursor, with its newest record;
  // every cursor on that key moves past it.
  method TakeSmallest(lists: seq<seq<Record>>, cur: array<nat>) returns (rec: Option<Record>)
    requires CursorsOk(lists, cur) && AllAscending(Rest(lists, cur[..]))
    modifies cur
    ensures CursorsOk(lists, cur) && AllAscending(Rest(lists, cur[..]))
    ensures rec == None ==> cur[..] == old(cur[..]) && OverlayOf(Rest(lists, cur[..])) == map[]
    ensures rec.Some? ==>
              var before := OverlayOf(Rest(lists, old(cur[..])));
              && IsLeast(rec.value.key, before.Keys) && before[rec.value.key] == rec.value.body
              && OverlayOf(Rest(lists, cur[..])) == before - {rec.value.key}
  {
    hide Less, ToMap, OverlayOf, Ascending, IsSmallestHead, AllAscending;
    ghost var rest := Rest(lists, cur[..]);
    var any, minKey := SmallestHead(lists, cur);
    if !any {
      EmptyOverlay(rest);
      return None;
    }
    var newest := NewestAt(lists, cur, minKey);
    rec := Some(lists[newest][cur[newest]]);
    SmallestHeadIsLeast(rest, minKey);
    NewestWins(rest, newest, minKey);
    Advance(lists, cur, minKey);
    ConsumeStep(rest, Rest(lists, cur[..]), minKey);
  }

  lemma NewestWins(lists: seq<seq<Record>>, newest: nat, k: Key)
    requires AllAscending(lists) && IsSmallestHead(lists, k)
    requires newest < |lists| && HeadIs(lists[newest], k)
    requires forall i :: 0 <= i < newest ==> !HeadIs(lists[i], k)
    ensures k in OverlayOf(lists) && OverlayOf(lists)[k] == lists[newest][0].body
  {
    hide Less;
    forall i | 0 <= i <= newest
      ensures k in ToMap(lists[i]) <==> HeadIs(lists[i], k)
      ensures i == newest ==> ToMap(lists[i])[k] == lists[i][0].body
    {
      OnlyAtHead(lists[i], k);
    }
    OverlayOfAt(lists, newest, k);
  }

  lemma ConsumeStep(lists: seq<seq<Record>>, next: seq<seq<Record>>, k: Key)
    requires AllAscending(lists) && IsSmallestHead(lists, k)
    requires |next| == |lists| && forall j :: 0 <= j < |lists| ==> next[j] == Consumed(lists[j], k)
    ensures AllAscending(next) && OverlayOf(next) == OverlayOf(lists) - {k}
  {
    ConsumeRemoves(lists, next, k);
  }
}
