// A table's whole life: built from records, its bytes opened again, and read.
module TableTrip {
  import opened Keys
  import opened Codec
  import opened Records
  import opened BloomFilter
  import opened TableFormat
  import opened SSTable
  import opened TableReads
  import opened TableScans
  import opened OpenTables

  // Whatever the filter's size, and with the filter consulted or not, the reopened bytes
  // answer a lookup, a range and an enumeration as the list of records would. A file
  // holds fewer than 2^64 bytes.
  method BuildThenRead(sorted: seq<Record>, numBits: nat, k: nat, key: Key, start: Key, end: Key, useBloom: bool)
    returns (file: Option<Bytes>, found: Option<Record>, slice: seq<Record>, all: seq<Record>)
    requires Ascending(sorted) && numBits + 7 < TWO64 && Fits32(k)
    requires forall r :: r in sorted ==> PointerFits(r.body)
    ensures file.Some? <==> AllStorable(sorted)
    ensures file.Some? && Fits64(|file.value|) ==>
              found == Find(sorted, key) && slice == InRange(sorted, start, end) && all == sorted
  {
    hide Ascending, Find, InRange, Flatten, ParseFile, Over, HoldsKeys, ToMap, Storable, Less;
    ghost var bs;
    var t;
    file, t, bs := WriteTable(sorted, numBits, k);
    found, slice, all := None, [], [];
    if file.Some? && Fits64(|file.value|) {
      var body := FindIn(t.value, key, useBloom, bs, ToMap(sorted));
      found := FoundRecord(sorted, key, body);
      slice := Range(t.value, start, end, bs);
      all := Enumerate(t.value, bs);
    }
  }

  function FoundRecord(sorted: seq<Record>, key: Key, body: Option<Body>): (r: Option<Record>)
    ensures body == (if key in ToMap(sorted) then Some(ToMap(sorted)[key]) else None) ==> r == Find(sorted, key)
  {
    if body.Some? then Some(Record(key, body.value)) else None
  }
}
