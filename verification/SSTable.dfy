// Building an SSTable: records into blocks, with an index entry for each, and a filter
// over all keys.
module SSTable {
  import opened Keys
  import opened Codec
  import opened Records
  import opened TableFormat
  import opened BloomFilter

  // ----- build -----

  // A block is closed by the record that takes it to 4096 bytes.
  ghost predicate FullBlock(b: seq<Record>) {
    b != [] && |EncodeAll(b)| >= 4096 && |EncodeAll(b[..|b| - 1])| < 4096
  }

  // Every block but the last is full, and the last is full or still under the target.
  ghost predicate Blocked(bs: seq<seq<Record>>) {
    && NonEmpty(bs)
    && forall i :: 0 <= i < |bs| ==> FullBlock(bs[i]) || (i == |bs| - 1 && |EncodeAll(bs[i])| < 4096)
  }

  ghost predicate HoldsKeys(f: Filter, rs: seq<Record>)
    requires f.Valid()
  {
    forall r :: r in rs ==> f.Contains(r.key)
  }

  lemma {:induction false} EncodeAllSnoc(rs: seq<Record>, r: Record)
    ensures EncodeAll(rs + [r]) == EncodeAll(rs) + Encode(r)
  {
    hide Encode;
    EncodeAllConcat(rs, [r]);
    assert [r][1..] == [];
    Nothing(Encode(r));
  }

  lemma CloseBlock(bs: seq<seq<Record>>, b: seq<Record>)
    requires NonEmpty(bs) && b != []
    ensures NonEmpty(bs + [b]) && Flatten(bs + [b]) == Flatten(bs) + b
    ensures EncodeIndex(Entries(bs + [b])) ==
            EncodeIndex(Entries(bs)) + EncodeEntry(IndexEntry(b[0].key, |EncodeAll(Flatten(bs))|, |EncodeAll(b)|))
  {
    hide EncodeAll, EncodeEntry, EncodeIndex, Flatten, Entries;
    EntriesSnoc(bs, b);
    FlattenSnoc(bs, b);
    EncodeIndexSnoc(Entries(bs), IndexEntry(b[0].key, |EncodeAll(Flatten(bs))|, |EncodeAll(b)|));
  }

  // The state of the builder: closed blocks, the open block, the bytes so far.
  ghost predicate Building(done: seq<Record>, bs: seq<seq<Record>>, cur: seq<Record>, data: Bytes, index: Bytes) {
    && NonEmpty(bs) && Flatten(bs) + cur == done
    && (forall j :: 0 <= j < |bs| ==> FullBlock(bs[j])) && |EncodeAll(cur)| < BLOCK_SIZE
    && data == EncodeAll(Flatten(bs)) + EncodeAll(cur)
    && index == EncodeIndex(Entries(bs))
  }

  ghost function EntryFor(bs: seq<seq<Record>>, b: seq<Record>): IndexEntry
    requires b != []
  {
    IndexEntry(b[0].key, |EncodeAll(Flatten(bs))|, |EncodeAll(b)|)
  }

  lemma AddRecord(done: seq<Record>, bs: seq<seq<Record>>, cur: seq<Record>, data: Bytes, index: Bytes, rec: Record)
    requires Building(done, bs, cur, data, index)
    ensures var cur' := cur + [rec];
            && |data + Encode(rec)| - |EncodeAll(Flatten(bs))| == |EncodeAll(cur')|
            && (|EncodeAll(cur')| < BLOCK_SIZE ==> Building(done + [rec], bs, cur', data + Encode(rec), index))
            && (|EncodeAll(cur')| >= BLOCK_SIZE ==>
                  Building(done + [rec], bs + [cur'], [], data + Encode(rec), index + EncodeEntry(EntryFor(bs, cur'))))
  {
    hide Encode, EncodeAll, EncodeEntry, EncodeIndex, Flatten, Entries;
    var cur' := cur + [rec];
    EncodeAllSnoc(cur, rec);
    Assoc(EncodeAll(Flatten(bs)), EncodeAll(cur), Encode(rec));
    Assoc(Flatten(bs), cur, [rec]);
    if |EncodeAll(cur')| >= BLOCK_SIZE {
      BlockIsClosed(done, bs, cur, data, index, rec);
    }
  }

  lemma BlockIsClosed(done: seq<Record>, bs: seq<seq<Record>>, cur: seq<Record>, data: Bytes, index: Bytes, rec: Record)
    requires Building(done, bs, cur, data, index) && |EncodeAll(cur + [rec])| >= BLOCK_SIZE
    ensures var cur' := cur + [rec];
            Building(done + [rec], bs + [cur'], [], data + Encode(rec), index + EncodeEntry(EntryFor(bs, cur')))
  {
    hide Encode, EncodeAll, EncodeEntry, EncodeIndex, Flatten, Entries;
    var cur' := cur + [rec];
    EncodeAllSnoc(cur, rec);
    Assoc(EncodeAll(Flatten(bs)), EncodeAll(cur), Encode(rec));
    Assoc(Flatten(bs), cur, [rec]);
    CloseBlock(bs, cur');
    EncodeAllConcat(Flatten(bs), cur');
    assert cur'[..|cur'| - 1] == cur;
    NothingEncoded();
    Nothing(Flatten(bs + [cur']));
    Nothing(EncodeAll(Flatten(bs + [cur'])));
  }

  lemma NothingEncoded()
    ensures EncodeAll([]) == [] && EncodeIndex([]) == []
  {
  }

  lemma StartBuilding()
    ensures Building([], [], [], [], [])
  {
  }

  // The last block is closed if it is open.
  lemma FinishBuilding(all: seq<Record>, bs: seq<seq<Record>>, cur: seq<Record>, data: Bytes, index: Bytes,
                       bloom: Bytes)
    requires Building(all, bs, cur, data, index)
    ensures var bs' := if cur == [] then bs else bs + [cur];
            var index' := if cur == [] then index else index + EncodeEntry(EntryFor(bs, cur));
            && Blocked(bs') && Flatten(bs') == all
            && data + index' + bloom + Footer(|data|, |index'|, |bloom|, |all|) == FileOf(bs', bloom)
  {
    hide Encode, EncodeAll, EncodeEntry, EncodeIndex, Footer, Flatten, Entries;
    NothingEncoded();
    if cur != [] {
      CloseBlock(bs, cur);
      EncodeAllConcat(Flatten(bs), cur);
    } else {
      Nothing(Flatten(bs));
      Nothing(EncodeAll(Flatten(bs)));
    }
  }

  lemma HoldsMarked(f: Filter, rs: seq<Record>)
    requires f.Valid() && Marks(f, set r | r in rs :: r.key)
    ensures HoldsKeys(f, rs)
  {
    hide Marks, Filter.Contains;
    forall r | r in rs ensures f.Contains(r.key) {
      MarkedIsContained(f, set x | x in rs :: x.key, r.key);
    }
  }

  // None stands for the error on a field of 4 GiB or more. Otherwise the file is that of
  // some blocking of the records, with a filter of the given size that holds every key and
  // no bit besides.
  method Build(sorted: seq<Record>, numBits: nat, k: nat)
    returns (file: Option<Bytes>, ghost bs: seq<seq<Record>>, ghost filter: Filter)
    requires numBits + 7 < TWO64 && Fits32(k)
    requires forall r :: r in sorted ==> PointerFits(r.body)
    ensures file.Some? <==> AllStorable(sorted)
    ensures file.Some? ==>
              && Blocked(bs) && Flatten(bs) == sorted
              && filter.Valid() && HoldsKeys(filter, sorted) && Marks(filter, set r | r in sorted :: r.key)
              && filter.numBits == (if numBits == 0 then 1 else numBits) && filter.k == (if k == 0 then 1 else k)
              && file.value == FileOf(bs, filter.Serialize())
  {
    hide Encode, EncodeAll, EncodeEntry, EncodeIndex, HoldsKeys, Blocked, Flatten, FileOf, Footer, Entries, Marks,
         Filter.Bit, ProbeOf, Filter.Contains, Filter.Serialize, BytesFor, Building;
    var bloom := new Bloom(numBits, k);
    var data: Bytes, index: Bytes := [], [];
    var blockStart, firstKey, blockOpen := 0, [], false;
    bs := [];
    ghost var cur: seq<Record> := [];
    filter := bloom.Value();
    MarksNothing(bloom.numBits, bloom.k);
    ghost var seen: set<Key> := {};
    StartBuilding();
    var i := 0;
    while i < |sorted|
      invariant 0 <= i <= |sorted| && bloom.Valid() && fresh(bloom.bits) && filter == bloom.Value()
      invariant AllStorable(sorted[..i])
      invariant seen == (set j | 0 <= j < i :: sorted[j].key) && Marks(filter, seen)
      invariant Building(sorted[..i], bs, cur, data, index)
      invariant blockOpen <==> cur != []
      invariant blockOpen ==> blockStart == |EncodeAll(Flatten(bs))| && firstKey == cur[0].key
    {
      var rec := sorted[i];
      assert rec in sorted;
      if |rec.key| > 0xffff_ffff || (rec.body.Inline? && |rec.body.value| > 0xffff_ffff) {
        return None, [], filter;
      }
      if !blockOpen {
        NothingEncoded();
        OpenBlockLength(sorted[..i], bs, cur, data, index);
        blockStart, firstKey, blockOpen := |data|, rec.key, true;
      }
      AddRecord(sorted[..i], bs, cur, data, index, rec);
      assert sorted[..i + 1] == sorted[..i] + [rec];
      cur := cur + [rec];
      data := data + Encode(rec);
      bloom.Add(rec.key);
      MarksOneMore(filter, bloom.Value(), seen, rec.key);
      seen := seen + {rec.key};
      filter := bloom.Value();
      i := i + 1;
      if |data| - blockStart >= BLOCK_SIZE {
        index := index + EncodeEntry(IndexEntry(firstKey, blockStart, |data| - blockStart));
        bs := bs + [cur];
        cur := [];
        blockOpen := false;
      }
    }
    assert sorted[..i] == sorted && seen == set r | r in sorted :: r.key;
    HoldsMarked(filter, sorted);
    var bloomBytes := bloom.Serialize();
    FinishBuilding(sorted, bs, cur, data, index, bloomBytes);
    if blockOpen {
      OpenBlockLength(sorted, bs, cur, data, index);
      index := index + EncodeEntry(IndexEntry(firstKey, blockStart, |data| - blockStart));
      bs := bs + [cur];
    }
    file := Some(data + index + bloomBytes + Footer(|data|, |index|, |bloomBytes|, |sorted|));
  }

  lemma OpenBlockLength(done: seq<Record>, bs: seq<seq<Record>>, cur: seq<Record>, data: Bytes, index: Bytes)
    requires Building(done, bs, cur, data, index)
    ensures |data| - |EncodeAll(Flatten(bs))| == |EncodeAll(cur)|
  {
  }
}
