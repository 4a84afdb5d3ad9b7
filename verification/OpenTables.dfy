// Open SSTables in place of the contents they stand for: point reads through index,
// block and filter, range reads, and merges through the cursors.
module OpenTables {
  import opened Keys
  import opened Codec
  import opened Records
  import opened Layers
  import opened Merge
  import opened BloomFilter
  import opened TableFormat
  import opened SSTable
  import opened TableReads
  import opened TableScans

  type Blocks = seq<seq<Record>>

  // The open file holds exactly these records, and its filter every key of them.
  ghost predicate Stands(t: Opened, bs: Blocks, recs: map<Key, Body>) {
    Over(t, bs) && ToMap(Flatten(bs)) == recs && t.bloom.Valid() && HoldsKeys(t.bloom, Flatten(bs))
  }

  // A list of open tables for a list of tables.
  ghost predicate AllStand(open: seq<Opened>, blocks: seq<Blocks>, tables: seq<Table>) {
    && |open| == |blocks| == |tables|
    && forall i :: 0 <= i < |tables| ==> Stands(open[i], blocks[i], tables[i].recs)
  }

  // Writes a table and opens it. A file holds fewer than 2^64 bytes.
  method WriteTable(sorted: seq<Record>, numBits: nat, k: nat)
    returns (file: Option<Bytes>, t: Option<Opened>, ghost bs: Blocks)
    requires Ascending(sorted) && numBits + 7 < TWO64 && Fits32(k)
    requires forall r :: r in sorted ==> PointerFits(r.body)
    ensures file.Some? <==> AllStorable(sorted)
    ensures file.Some? && Fits64(|file.value|) ==>
              t.Some? && t == ParseFile(file.value) && Stands(t.value, bs, ToMap(sorted)) && Flatten(bs) == sorted
  {
    hide Ascending, Flatten, FileOf, ParseFile, Over, HoldsKeys, Filter.Contains, Filter.Serialize, Storable, Less,
         FullBlock, ToMap;
    ghost var filter;
    file, bs, filter := Build(sorted, numBits, k);
    t := None;
    if file.Some? && Fits64(|file.value|) {
      ReopenRestores(bs, filter);
      BuiltIsOver(bs, filter);
      t := Open(file.value);
    }
  }

  // The record of a key, with the filter consulted or not.
  method FindIn(t: Opened, key: Key, useBloom: bool, ghost bs: Blocks, ghost recs: map<Key, Body>)
    returns (body: Option<Body>)
    requires Stands(t, bs, recs)
    ensures body == if key in recs then Some(recs[key]) else None
  {
    hide Over, HoldsKeys, ToMap, Flatten, Filter.Contains;
    if useBloom {
      FilterChangesNothing(Flatten(bs), t.bloom, key);
      var bloom := new Bloom.Of(t.bloom);
      var mayHold := bloom.MaybeContains(key);
      if !mayHold {
        return None;
      }
    }
    var rec := GetNoBloom(t, key, bs);
    body := if rec.Some? then Some(rec.value.body) else None;
  }

  // The tables newest first, skipping those whose filter rules the key out. With the
  // filters on or off the answer is the same, and it is the newest record's.
  method GetFromTables(open: seq<Opened>, logs: Logs, key: Key, useBloom: bool, ghost blocks: seq<Blocks>,
                       ghost tables: seq<Table>)
    returns (a: Answer)
    requires AllStand(open, blocks, tables)
    ensures a == Read(tables, logs, key)
  {
    hide Stands;
    var i := 0;
    while i < |open|
      invariant 0 <= i <= |open|
      invariant forall j :: 0 <= j < i ==> key !in tables[j].recs
    {
      var body := FindIn(open[i], key, useBloom, blocks[i], tables[i].recs);
      if body.Some? {
        LookupAt(tables, i, key);
        return Resolve(body.value, logs);
      }
      i := i + 1;
    }
    LookupNone(tables, key);
    a := Missing;
  }

  lemma StandsIsListing(t: Opened, bs: Blocks, recs: map<Key, Body>)
    requires Stands(t, bs, recs)
    ensures Over(t, bs) && Flatten(bs) == Listing(recs)
  {
    hide Less, HoldsKeys, BlockAt, ToMap, Listing, Flatten, Offset;
    ListingUnique(Flatten(bs));
  }

  // Each table's records in range.
  method TableRanges(open: seq<Opened>, start: Key, end: Key, ghost blocks: seq<Blocks>, ghost tables: seq<Table>)
    returns (out: seq<seq<Record>>)
    requires AllStand(open, blocks, tables)
    ensures |out| == |tables|
    ensures forall i :: 0 <= i < |tables| ==> out[i] == InRange(Listing(tables[i].recs), start, end)
  {
    hide Stands, Listing, InRange, Over, Flatten;
    out := [];
    var i := 0;
    while i < |open|
      invariant 0 <= i <= |open| && |out| == i
      invariant forall j :: 0 <= j < i ==> out[j] == InRange(Listing(tables[j].recs), start, end)
    {
      StandsIsListing(open[i], blocks[i], tables[i].recs);
      var slice := Range(open[i], start, end, blocks[i]);
      out := out + [slice];
      i := i + 1;
    }
  }

  // The merge of some tables' contents, each read through its cursor.
  method MergeTables(open: seq<Opened>, drop: bool, ghost blocks: seq<Blocks>, ghost tables: seq<Table>)
    returns (out: seq<Record>)
    requires AllStand(open, blocks, tables)
    ensures Ascending(out) && ToMap(out) == Merged(tables, drop)
    ensures out == Listing(Merged(tables, drop))
  {
    hide Less, Listing, ToMap, OverlayOf, Overlay, Ascending, Stands, Over, Flatten;
    var lists: seq<seq<Record>> := [];
    var i := 0;
    while i < |open|
      invariant 0 <= i <= |open| && |lists| == i
      invariant forall j :: 0 <= j < i ==> lists[j] == Listing(tables[j].recs)
    {
      StandsIsListing(open[i], blocks[i], tables[i].recs);
      var l := Enumerate(open[i], blocks[i]);
      lists := lists + [l];
      i := i + 1;
    }
    forall j | 0 <= j < |lists| ensures Ascending(lists[j]) && ToMap(lists[j]) == tables[j].recs {
      ListingOf(tables[j].recs);
    }
    OverlayOfTables(lists, tables);
    out := MergeRecords(lists, drop);
  }
}
