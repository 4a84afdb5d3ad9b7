// The in-memory table of recent writes, with its byte accounting.
module Memtable {
  import opened Keys
  import opened Records
  import opened TableScans

  datatype Entry = Entry(value: Bytes, tombstone: bool)

  function EntryBytes(key: Key, value: Bytes): nat {
    |key| + |value|
  }

  function BodyOf(e: Entry): Body {
    if e.tombstone then Deleted else Inline(e.value)
  }

  function Bodies(m: map<Key, Entry>): map<Key, Body> {
    map k | k in m :: BodyOf(m[k])
  }

  lemma ListingStep(m: map<Key, Entry>, k: Key)
    requires k in m && forall j :: j in m ==> !Less(j, k)
    ensures Listing(Bodies(m)) == [Record(k, BodyOf(m[k]))] + Listing(Bodies(m - {k}))
  {
    hide Less;
    KeyOrder();
    var b := Bodies(m);
    assert b.Keys == m.Keys && Least(b.Keys) == k;
    assert b - {k} == Bodies(m - {k});
  }

  lemma LeastEntry(m: map<Key, Entry>)
    requires m != map[]
    ensures exists k :: k in m && forall j :: j in m ==> !Less(j, k)
  {
    hide Less;
    LeastExists(m.Keys);
    var k :| IsLeast(k, m.Keys);
    assert k in m && forall j :: j in m ==> !Less(j, k);
  }

  // Keys plus values over all entries.
  ghost function TotalBytes(m: map<Key, Entry>): nat
    decreases |m|
  {
    if m == map[] then 0
    else
      var k :| k in m;
      assert |m - {k}| < |m| by { MapShrinks(m, k); }
      |k| + |m[k].value| + TotalBytes(m - {k})
  }

  lemma {:induction false} TotalWithout(m: map<Key, Entry>, k: Key)
    requires k in m
    ensures TotalBytes(m) == |k| + |m[k].value| + TotalBytes(m - {k})
    decreases |m|
  {
    var j :| j in m && TotalBytes(m) == |j| + |m[j].value| + TotalBytes(m - {j});
    if j != k {
      MapShrinks(m, j);
      MapShrinks(m, k);
      TotalWithout(m - {j}, k);
      TotalWithout(m - {k}, j);
      assert m - {j} - {k} == m - {k} - {j};
    }
  }

  lemma TotalWith(m: map<Key, Entry>, k: Key, e: Entry)
    ensures TotalBytes(m[k := e]) == TotalBytes(m - {k}) + |k| + |e.value|
  {
    TotalWithout(m[k := e], k);
    assert m[k := e] - {k} == m - {k};
  }

  // An absent key's removal changes nothing.
  lemma RemoveAbsent(m: map<Key, Entry>, k: Key)
    requires k !in m
    ensures m - {k} == m
  {
  }

  class Table {
    var entries: map<Key, Entry>
    var sizeBytes: nat

    // The accounting never drifts from the contents, and tombstones carry no value.
    ghost predicate Valid()
      reads this
    {
      && sizeBytes == TotalBytes(entries)
      && forall k :: k in entries && entries[k].tombstone ==> entries[k].value == []
    }

    // The contents as the rest of the store sees them.
    ghost function Contents(): map<Key, Body>
      reads this
    {
      Bodies(entries)
    }

    constructor ()
      ensures Valid() && Contents() == map[]
    {
      entries := map[];
      sizeBytes := 0;
    }

    // The subtraction before an overwrite never underflows: the field is a nat.
    method Put(key: Key, value: Bytes)
      requires Valid()
      modifies this
      ensures Valid() && Contents() == old(Contents())[key := Inline(value)]
    {
      TotalWith(entries, key, Entry(value, false));
      if key in entries {
        TotalWithout(entries, key);
        sizeBytes := sizeBytes - EntryBytes(key, entries[key].value);
      } else {
        RemoveAbsent(entries, key);
      }
      entries := entries[key := Entry(value, false)];
      sizeBytes := sizeBytes + EntryBytes(key, entries[key].value);
    }

    method Del(key: Key)
      requires Valid()
      modifies this
      ensures Valid() && Contents() == old(Contents())[key := Deleted]
    {
      TotalWith(entries, key, Entry([], true));
      if key in entries {
        TotalWithout(entries, key);
        sizeBytes := sizeBytes - EntryBytes(key, entries[key].value);
      } else {
        RemoveAbsent(entries, key);
      }
      entries := entries[key := Entry([], true)];
      sizeBytes := sizeBytes + |key|;
    }

    function Get(key: Key): (r: Option<Bytes>)
      reads this
      ensures r.Some? <==> key in Contents() && Contents()[key].Inline?
      ensures r.Some? ==> Contents()[key] == Inline(r.value)
    {
      if key !in entries || entries[key].tombstone then None else Some(entries[key].value)
    }

    predicate IsTombstone(key: Key)
      reads this
      ensures IsTombstone(key) <==> key in Contents() && Contents()[key] == Deleted
    {
      key in entries && entries[key].tombstone
    }

    // The entries in ascending key order, tombstones kept.
    method Snapshot() returns (out: seq<Record>)
      ensures out == Listing(Contents())
    {
      hide Less, Listing, Bodies;
      out := [];
      var rest := entries;
      while rest != map[]
        invariant out + Listing(Bodies(rest)) == Listing(Contents())
        decreases |rest|
      {
        LeastEntry(rest);
        var k :| k in rest && forall j :: j in rest ==> !Less(j, k);
        MapShrinks(rest, k);
        ListingStep(rest, k);
        out := out + [Record(k, BodyOf(rest[k]))];
        rest := rest - {k};
      }
      EmptyListing();
    }

    // lower_bound, then forward to the end key.
    method Range(start: Key, end: Key) returns (out: seq<Record>)
      ensures out == InRange(Listing(Contents()), start, end)
    {
      hide Less, InRange, Ascending, Listing;
      var all := Snapshot();
      ListingOf(Contents());
      out := RangeOf(all, start, end);
    }

    method TombstoneCount() returns (n: nat)
      ensures n == |set k | k in Contents() && Contents()[k] == Deleted|
    {
      n := 0;
      var rest := entries.Keys;
      ghost var seen: set<Key> := {};
      while rest != {}
        invariant rest <= entries.Keys && seen == set k | k in entries && k !in rest && entries[k].tombstone
        invariant n == |seen|
        decreases |rest|
      {
        var k :| k in rest;
        if entries[k].tombstone {
          n := n + 1;
          seen := seen + {k};
        }
        rest := rest - {k};
      }
      assert seen == set k | k in Contents() && Contents()[k] == Deleted;
    }
  }

  lemma EmptyListing()
    ensures Listing(Bodies(map[])) == []
  {
  }

  method RangeOf(all: seq<Record>, start: Key, end: Key) returns (out: seq<Record>)
    requires Ascending(all)
    ensures out == InRange(all, start, end)
  {
    hide Less, InRange;
    KeyOrder();
    var i := 0;
    while i < |all| && Less(all[i].key, start)
      invariant 0 <= i <= |all|
      invariant forall j :: 0 <= j < i ==> Less(all[j].key, start)
    {
      i := i + 1;
    }
    out := [];
    NothingInRange(all[..i], start, end);
    while i < |all| && Less(all[i].key, end)
      invariant 0 <= i <= |all|
      invariant forall j :: i <= j < |all| ==> AtMost(start, all[j].key)
      invariant out == InRange(all[..i], start, end)
    {
      RangeStep(all, i, start, end);
      out := out + [all[i]];
      i := i + 1;
    }
    RangeStop(all, i, start, end);
  }

  lemma RangeStep(all: seq<Record>, i: nat, start: Key, end: Key)
    requires i < |all| && AtMost(start, all[i].key) && Less(all[i].key, end)
    ensures InRange(all[..i + 1], start, end) == InRange(all[..i], start, end) + [all[i]]
  {
    hide Less, InRange;
    assert all == all[..i] + all[i..];
    Splits(all, all[..i], all[i..]);
    OneMore(all, all[..i], all[i..], start, end);
    assert all[..i] + [all[i..][0]] == all[..i + 1];
  }

  lemma RangeStop(all: seq<Record>, i: nat, start: Key, end: Key)
    requires Ascending(all) && i <= |all| && (i < |all| ==> AtMost(end, all[i].key))
    ensures InRange(all, start, end) == InRange(all[..i], start, end)
  {
    hide Less, InRange, Ascending;
    assert all == all[..i] + all[i..];
    Splits(all, all[..i], all[i..]);
    StopHere(all, all[..i], all[i..], start, end);
  }

  // Applies replayed records to a memtable, oldest first.
  method Apply(t: Table, recs: seq<Record>)
    requires t.Valid() && forall r :: r in recs ==> !r.body.Separated?
    modifies t
    ensures t.Valid() && t.Contents() == old(t.Contents()) + ToMap(recs)
  {
    hide ToMap, Table.Valid, Table.Contents;
    assert t.Contents() == t.Contents() + ToMap(recs[..0]) by {
      NothingApplied(recs, t.Contents());
    }
    var i := 0;
    while i < |recs|
      invariant 0 <= i <= |recs| && t.Valid()
      invariant t.Contents() == old(t.Contents()) + ToMap(recs[..i])
    {
      OneMoreApplied(recs, i, old(t.Contents()));
      assert recs[i] in recs;
      if recs[i].body.Inline? {
        t.Put(recs[i].key, recs[i].body.value);
      } else {
        t.Del(recs[i].key);
      }
      i := i + 1;
    }
    assert recs[..i] == recs;
  }

  lemma NothingApplied(recs: seq<Record>, m: map<Key, Body>)
    ensures m == m + ToMap(recs[..0])
  {
  }

  lemma OneMoreApplied(recs: seq<Record>, i: nat, m: map<Key, Body>)
    requires i < |recs|
    ensures m + ToMap(recs[..i + 1]) == (m + ToMap(recs[..i]))[recs[i].key := recs[i].body]
  {
    assert recs[..i + 1][..i] == recs[..i];
  }
}
