// Opening an SSTable's bytes and reading it.
module TableReads {
  import opened Keys
  import opened Codec
  import opened Records
  import opened TableFormat
  import opened BloomFilter
  import opened SSTable

  // An open table: the file, the parsed index, the cached key range, the filter.
  datatype Opened = Opened(file: Bytes, index: seq<IndexEntry>, minKey: Key, maxKey: Key, bloom: Filter, records: nat)

  // A positioned read; None stands for the end-of-file error, which needs something to read.
  function Region(file: Bytes, off: nat, len: nat): Option<Bytes> {
    if len == 0 then Some([])
    else if off + len > |file| then None
    else Some(file[off..off + len])
  }

  function BlockAt(file: Bytes, e: IndexEntry): Option<seq<Record>> {
    match Region(file, e.offset, e.length)
    case None => None
    case Some(b) => ParseAll(b)
  }

  function Prepend(out: seq<Record>, rest: Option<seq<Record>>): Option<seq<Record>> {
    if rest == None then None else Some(out + rest.value)
  }

  method ReadBlock(file: Bytes, e: IndexEntry) returns (recs: Option<seq<Record>>)
    ensures recs == BlockAt(file, e)
  {
    hide Parse;
    var region := Region(file, e.offset, e.length);
    if region == None {
      return None;
    }
    var bytes := region.value;
    var out: seq<Record>, p := [], 0;
    assert bytes[0..] == bytes;
    assert ParseAll(bytes).Some? ==> [] + ParseAll(bytes).value == ParseAll(bytes).value;
    while p < |bytes|
      invariant 0 <= p <= |bytes|
      invariant ParseAll(bytes) == Prepend(out, ParseAll(bytes[p..]))
    {
      match Parse(bytes[p..]) {
        case None =>
          return None;
        case Some((r, n)) =>
          assert bytes[p..][n..] == bytes[p + n..];
          ghost var rest := ParseAll(bytes[p + n..]);
          assert rest.Some? ==> out + ([r] + rest.value) == out + [r] + rest.value;
          out := out + [r];
          p := p + n;
      }
    }
    assert bytes[p..] == [];
    assert out + [] == out;
    recs := Some(out);
  }

  // The constructor's parse of a file. The sum of the sizes is taken in 64 bits.
  function ParseFile(file: Bytes): Option<Opened> {
    if |file| < FOOTER_SIZE then None
    else
      var footer := file[|file| - FOOTER_SIZE..];
      if footer[32..40] != MAGIC then None
      else
        var dataSize, indexSize, bloomSize := ReadLe(footer[..8]), ReadLe(footer[8..16]), ReadLe(footer[16..24]);
        if (dataSize + indexSize + bloomSize + FOOTER_SIZE) % TWO64 != |file| then None
        else
          match (Region(file, dataSize, indexSize), Region(file, dataSize + indexSize, bloomSize))
          case (Some(idx), Some(bloomBytes)) =>
            (match (ParseIndex(idx), Deserialize(bloomBytes))
             case (Some(es), Some(bloom)) =>
               if es == [] then Some(Opened(file, es, [], [], bloom, ReadLe(footer[24..32])))
               else
                 (match BlockAt(file, es[|es| - 1])
                  case None => None
                  case Some(last) =>
                    Some(Opened(file, es, es[0].firstKey, if last == [] then [] else last[|last| - 1].key, bloom,
                                ReadLe(footer[24..32]))))
             case (_, _) => None)
          case (_, _) => None
  }

  // What opening the file of a block list gives.
  function TableFor(bs: seq<seq<Record>>, bloom: Filter): Opened
    requires forall i :: 0 <= i < |bs| ==> bs[i] != []
  {
    var last := if bs == [] then [] else bs[|bs| - 1];
    Opened(FileOf(bs, bloom.Serialize()), Entries(bs), if bs == [] then [] else bs[0][0].key,
           if last == [] then [] else last[|last| - 1].key, bloom, |Flatten(bs)|)
  }

  lemma FooterFields(a: nat, b: nat, c: nat, d: nat)
    requires Fits64(a) && Fits64(b) && Fits64(c) && Fits64(d)
    ensures var f := Footer(a, b, c, d);
            && f[32..40] == MAGIC && ReadLe(f[..8]) == a && ReadLe(f[8..16]) == b
            && ReadLe(f[16..24]) == c && ReadLe(f[24..32]) == d
  {
    hide ReadLe, U64;
    var f := Footer(a, b, c, d);
    U64RoundTrip(a);
    U64RoundTrip(b);
    U64RoundTrip(c);
    U64RoundTrip(d);
    assert f[..8] == U64(a) && f[8..16] == U64(b) && f[16..24] == U64(c) && f[24..32] == U64(d);
  }

  lemma Regions(data: Bytes, index: Bytes, bloom: Bytes, footer: Bytes)
    ensures var file := data + index + bloom + footer;
            && Region(file, |data|, |index|) == Some(index)
            && Region(file, |data| + |index|, |bloom|) == Some(bloom)
            && file[|file| - |footer|..] == footer
  {
    var file := data + index + bloom + footer;
    assert file[|data|..|data| + |index|] == index;
    assert file[|data| + |index|..|data| + |index| + |bloom|] == bloom;
  }

  lemma DataRegion(data: Bytes, index: Bytes, bloom: Bytes, footer: Bytes, o: nat, n: nat)
    requires o + n <= |data|
    ensures Region(data + index + bloom + footer, o, n) == Some(data[o..o + n])
  {
    assert (data + index + bloom + footer)[o..o + n] == data[o..o + n];
  }

  lemma {:induction false} CountFits(rs: seq<Record>)
    ensures |rs| <= |EncodeAll(rs)|
  {
    hide Encode;
    if rs != [] {
      CountFits(rs[1..]);
    }
  }

  lemma {:induction false} FlattenMembers(bs: seq<seq<Record>>, i: nat)
    requires i < |bs| && AllStorable(Flatten(bs))
    ensures AllStorable(bs[i])
  {
    forall r | r in bs[i] ensures Storable(r) {
      BlockInFlatten(bs, i, r);
    }
  }

  // Every block reads back.
  lemma BlockReadsBack(bs: seq<seq<Record>>, bloom: Bytes, i: nat)
    requires NonEmpty(bs) && AllStorable(Flatten(bs)) && i < |bs|
    ensures BlockAt(FileOf(bs, bloom), Entries(bs)[i]) == Some(bs[i])
  {
    hide Encode, EncodeAll, EncodeEntry, EncodeIndex, Footer, ParseAll, Storable, Offset, Region, Flatten;
    var data, index := EncodeAll(Flatten(bs)), EncodeIndex(Entries(bs));
    BlockBytes(bs, i);
    DataRegion(data, index, bloom, Footer(|data|, |index|, |bloom|, |Flatten(bs)|), Offset(bs, i), |EncodeAll(bs[i])|);
    FlattenMembers(bs, i);
    ParseAllEncoded(bs[i]);
  }

  lemma EntriesFit(bs: seq<seq<Record>>)
    requires NonEmpty(bs) && AllStorable(Flatten(bs)) && Fits64(|EncodeAll(Flatten(bs))|)
    ensures forall e :: e in Entries(bs) ==> EntryFits(e)
  {
    hide Encode, EncodeAll, Offset;
    forall i | 0 <= i < |bs| ensures EntryFits(Entries(bs)[i]) {
      BlockBytes(bs, i);
      FlattenMembers(bs, i);
      assert bs[i][0] in bs[i];
    }
  }

  // Reopening the bytes of a built table restores its index, its key range, its filter
  // and its record count.
  lemma ReopenRestores(bs: seq<seq<Record>>, bloom: Filter)
    requires NonEmpty(bs) && AllStorable(Flatten(bs)) && bloom.Valid()
    requires Fits64(|FileOf(bs, bloom.Serialize())|)
    ensures ParseFile(FileOf(bs, bloom.Serialize())) == Some(TableFor(bs, bloom))
  {
    hide Encode, EncodeAll, EncodeEntry, EncodeIndex, Footer, ParseAll, ParseIndex, Storable, Region, BlockAt, ReadLe,
         Deserialize, Flatten, ParseFile, Entries, Filter.Serialize;
    var data, index, filter := EncodeAll(Flatten(bs)), EncodeIndex(Entries(bs)), bloom.Serialize();
    CountFits(Flatten(bs));
    EntriesFit(bs);
    ParseIndexEncoded(Entries(bs));
    SerializeRoundTrip(bloom);
    ParsePieces(data, index, filter, |Flatten(bs)|);
    if bs == [] {
      NoEntries(bs);
    } else {
      BlockReadsBack(bs, filter, |bs| - 1);
      EndEntries(bs);
    }
  }

  lemma NoEntries(bs: seq<seq<Record>>)
    requires bs == []
    ensures Entries(bs) == []
  {
  }

  lemma EndEntries(bs: seq<seq<Record>>)
    requires NonEmpty(bs) && bs != []
    ensures |Entries(bs)| == |bs| && Entries(bs)[0].firstKey == bs[0][0].key
  {
    hide EncodeAll, Offset;
  }

  // A file whose three regions and footer agree parses by its regions.
  lemma ParsePieces(data: Bytes, index: Bytes, filter: Bytes, count: nat)
    requires var file := data + index + filter + Footer(|data|, |index|, |filter|, count);
             Fits64(|file|) && Fits64(count)
    requires ParseIndex(index).Some? && Deserialize(filter).Some?
    ensures var file := data + index + filter + Footer(|data|, |index|, |filter|, count);
            var es, bloom := ParseIndex(index).value, Deserialize(filter).value;
            ParseFile(file) ==
            if es == [] then Some(Opened(file, es, [], [], bloom, count))
            else
              match BlockAt(file, es[|es| - 1])
              case None => None
              case Some(last) =>
                Some(Opened(file, es, es[0].firstKey, if last == [] then [] else last[|last| - 1].key, bloom, count))
  {
    hide Footer, ParseIndex, BlockAt, ReadLe, Deserialize, Region;
    var footer := Footer(|data|, |index|, |filter|, count);
    Regions(data, index, filter, footer);
    FooterFields(|data|, |index|, |filter|, count);
  }

  // ----- the constructor's index loop -----

  function PrependEntries(out: seq<IndexEntry>, rest: Option<seq<IndexEntry>>): Option<seq<IndexEntry>> {
    if rest == None then None else Some(out + rest.value)
  }

  lemma IndexStep(idx: Bytes, p: nat, out: seq<IndexEntry>, e: IndexEntry, n: nat)
    requires p < |idx| && ParseEntry(idx[p..]) == Some((e, n)) && p + n <= |idx|
    ensures PrependEntries(out, ParseIndex(idx[p..])) == PrependEntries(out + [e], ParseIndex(idx[p + n..]))
  {
    hide ParseEntry;
    var rest := ParseIndex(idx[p + n..]);
    assert idx[p..][n..] == idx[p + n..];
    assert rest.Some? ==> out + ([e] + rest.value) == (out + [e]) + rest.value;
  }

  lemma IndexEnds(idx: Bytes, p: nat, out: seq<IndexEntry>)
    requires p <= |idx|
    ensures p == |idx| ==> PrependEntries(out, ParseIndex(idx[p..])) == Some(out)
    ensures p < |idx| && ParseEntry(idx[p..]) == None ==> PrependEntries(out, ParseIndex(idx[p..])) == None
    ensures PrependEntries([], ParseIndex(idx[0..])) == ParseIndex(idx)
  {
    hide ParseEntry;
    assert idx[0..] == idx && out + [] == out;
    assert ParseIndex(idx).Some? ==> [] + ParseIndex(idx).value == ParseIndex(idx).value;
  }

  method ReadIndex(idx: Bytes) returns (index: Option<seq<IndexEntry>>)
    ensures index == ParseIndex(idx)
  {
    hide ReadLe, ParseIndex, PrependEntries, ParseEntry;
    var out: seq<IndexEntry>, p := [], 0;
    IndexEnds(idx, p, out);
    while p < |idx|
      invariant 0 <= p <= |idx|
      invariant ParseIndex(idx) == PrependEntries(out, ParseIndex(idx[p..]))
    {
      IndexEnds(idx, p, out);
      EntryAt(idx, p);
      if p + 4 > |idx| {
        return None;
      }
      var klen := ReadLe(idx[p..p + 4]);
      var q := p + 4;
      if q + klen + 16 > |idx| {
        return None;
      }
      var e := IndexEntry(idx[q..q + klen], ReadLe(idx[q + klen..q + klen + 8]),
                          ReadLe(idx[q + klen + 8..q + klen + 16]));
      IndexStep(idx, p, out, e, 20 + klen);
      out := out + [e];
      p := q + klen + 16;
    }
    IndexEnds(idx, p, out);
    index := Some(out);
  }

  // The entry at a position, in terms of the whole index.
  lemma EntryAt(idx: Bytes, p: nat)
    requires p <= |idx|
    ensures ParseEntry(idx[p..]) ==
            if p + 4 > |idx| then None
            else
              var klen, q := ReadLe(idx[p..p + 4]), p + 4;
              if q + klen + 16 > |idx| then None
              else
                Some((IndexEntry(idx[q..q + klen], ReadLe(idx[q + klen..q + klen + 8]),
                                 ReadLe(idx[q + klen + 8..q + klen + 16])), 20 + klen))
  {
    hide ReadLe;
    if p + 4 <= |idx| {
      Shifted(idx, p, 0, 4);
      assert idx[p..][0..4] == idx[p..][..4];
      var klen := ReadLe(idx[p..p + 4]);
      if p + 4 + klen + 16 <= |idx| {
        Shifted(idx, p, 4, 4 + klen);
        Shifted(idx, p, 4 + klen, 12 + klen);
        Shifted(idx, p, 12 + klen, 20 + klen);
      }
    }
  }

  method Open(file: Bytes) returns (t: Option<Opened>)
    ensures t == ParseFile(file)
  {
    hide ReadLe, Deserialize, ParseIndex, BlockAt;
    if |file| < FOOTER_SIZE {
      return None;
    }
    var footer := file[|file| - FOOTER_SIZE..];
    if footer[32..40] != MAGIC {
      return None;
    }
    var dataSize, indexSize, bloomSize := ReadLe(footer[..8]), ReadLe(footer[8..16]), ReadLe(footer[16..24]);
    if (dataSize + indexSize + bloomSize + FOOTER_SIZE) % TWO64 != |file| {
      return None;
    }
    var idx := Region(file, dataSize, indexSize);
    if idx == None {
      return None;
    }
    var index := ReadIndex(idx.value);
    if index == None {
      return None;
    }
    var minKey: Key, maxKey: Key := [], [];
    if index.value != [] {
      minKey := index.value[0].firstKey;
      var last := ReadBlock(file, index.value[|index.value| - 1]);
      if last == None {
        return None;
      }
      if last.value != [] {
        maxKey := last.value[|last.value| - 1].key;
      }
    }
    var bloomBytes := Region(file, dataSize + indexSize, bloomSize);
    if bloomBytes == None {
      return None;
    }
    var bloom := Deserialize(bloomBytes.value);
    if bloom == None {
      return None;
    }
    t := Some(Opened(file, index.value, minKey, maxKey, bloom.value, ReadLe(footer[24..32])));
  }

  // ----- which files open -----

  // The footer: three sizes that add up to the file's in 64 bits, the record count, and
  // the eight letters.
  ghost predicate Footed(file: Bytes, data: nat, index: nat, bloom: nat, records: nat) {
    var n := |file|;
    && n >= 40 && (forall i :: 0 <= i < 8 ==> file[n - 8 + i] == "LSMKVSST"[i] as int)
    && ReadLe(file[n - 40..n - 32]) == data && ReadLe(file[n - 32..n - 24]) == index
    && ReadLe(file[n - 24..n - 16]) == bloom && ReadLe(file[n - 16..n - 8]) == records
    && (data + index + bloom + 40) % 0x1_0000_0000_0000_0000 == n
  }

  // The bytes stand at the offset; no bytes stand anywhere.
  ghost predicate At(file: Bytes, off: nat, bytes: Bytes) {
    bytes == [] || (off + |bytes| <= |file| && file[off..off + |bytes|] == bytes)
  }

  // The cached range: the first key of the index and the last key of its last block.
  ghost predicate RangeRead(t: Opened) {
    if t.index == [] then t.minKey == [] && t.maxKey == []
    else
      && t.minKey == t.index[0].firstKey
      && exists b, rs: seq<Record> :: LastBlock(t, b, rs) && t.maxKey == if rs == [] then [] else rs[|rs| - 1].key
  }

  ghost predicate LastBlock(t: Opened, b: Bytes, rs: seq<Record>)
    requires t.index != []
  {
    var e := t.index[|t.index| - 1];
    |b| == e.length && At(t.file, e.offset, b) && FormsAll(b, rs)
  }

  // The regions the footer names are the index and the filter of t.
  ghost predicate Laid(t: Opened, data: nat, index: nat, bloom: nat) {
    && (forall e :: e in t.index ==> EntryFits(e))
    && |EncodeIndex(t.index)| == index && At(t.file, data, EncodeIndex(t.index))
    && exists f :: |f| == bloom && At(t.file, data + index, f) && BloomFilter.Forms(f, t.bloom)
  }

  // A file opens exactly when its footer, its index, its filter and the last block the
  // index names are all in order, and then to what they say.
  lemma OpensExactly(file: Bytes, t: Opened)
    ensures ParseFile(file) == Some(t) <==>
            t.file == file && RangeRead(t) &&
            exists data: nat, index: nat, bloom: nat ::
              Footed(file, data, index, bloom, t.records) && Laid(t, data, index, bloom)
  {
    hide ParseFile, Footed, Laid, RangeRead;
    if ParseFile(file) == Some(t) {
      OpenedIsLaid(file, t);
    }
    if t.file == file && RangeRead(t) {
      forall data: nat, index: nat, bloom: nat
        | Footed(file, data, index, bloom, t.records) && Laid(t, data, index, bloom)
        ensures ParseFile(file) == Some(t)
      {
        LaidOpens(file, t, data, index, bloom);
      }
    }
  }

  lemma RegionExactly(file: Bytes, off: nat, len: nat, b: Bytes)
    ensures Region(file, off, len) == Some(b) <==> |b| == len && At(file, off, b)
  {
  }

  lemma FooterRead(file: Bytes, data: nat, index: nat, bloom: nat, records: nat)
    requires |file| >= FOOTER_SIZE
    ensures var footer := file[|file| - FOOTER_SIZE..];
            Footed(file, data, index, bloom, records) <==>
            && footer[32..40] == MAGIC
            && ReadLe(footer[..8]) == data && ReadLe(footer[8..16]) == index && ReadLe(footer[16..24]) == bloom
            && ReadLe(footer[24..32]) == records && (data + index + bloom + FOOTER_SIZE) % TWO64 == |file|
  {
    hide ReadLe;
    var n := |file|;
    var footer := file[n - FOOTER_SIZE..];
    Shifted(file, n - 40, 0, 8);
    Shifted(file, n - 40, 8, 16);
    Shifted(file, n - 40, 16, 24);
    Shifted(file, n - 40, 24, 32);
    assert footer[0..8] == footer[..8];
    var magic := footer[32..40];
    assert forall i :: 0 <= i < 8 ==> magic[i] == file[n - 8 + i];
    assert magic == MAGIC <==> forall i :: 0 <= i < 8 ==> magic[i] == "LSMKVSST"[i] as int;
  }

  lemma OpenedIsLaid(file: Bytes, t: Opened)
    requires ParseFile(file) == Some(t)
    ensures t.file == file && RangeRead(t)
    ensures exists data: nat, index: nat, bloom: nat ::
              Footed(file, data, index, bloom, t.records) && Laid(t, data, index, bloom)
  {
    hide ReadLe, Footed, Region, ParseIndex, Deserialize, At, EntryFits, EncodeIndex, BloomFilter.Forms, FormsAll,
         BlockAt;
    var footer := file[|file| - FOOTER_SIZE..];
    var data, index, bloom := ReadLe(footer[..8]), ReadLe(footer[8..16]), ReadLe(footer[16..24]);
    FooterRead(file, data, index, bloom, t.records);
    var idx, f := Region(file, data, index).value, Region(file, data + index, bloom).value;
    RegionExactly(file, data, index, idx);
    RegionExactly(file, data + index, bloom, f);
    IndexParsesExactly(idx, t.index);
    DeserializesExactly(f, t.bloom);
    if t.index != [] {
      BlockExactly(t);
    }
  }

  lemma BlockExactly(t: Opened)
    requires t.index != []
    ensures var last := BlockAt(t.file, t.index[|t.index| - 1]);
            && (last.Some? ==> exists b :: LastBlock(t, b, last.value))
            && (forall b, rs :: LastBlock(t, b, rs) ==> last == Some(rs))
  {
    hide Region, At, FormsAll, ParseAll;
    var e := t.index[|t.index| - 1];
    var last := BlockAt(t.file, e);
    if last.Some? {
      var b := Region(t.file, e.offset, e.length).value;
      RegionExactly(t.file, e.offset, e.length, b);
      BlockParsesExactly(b, last.value);
      assert LastBlock(t, b, last.value);
    }
    forall b, rs | LastBlock(t, b, rs) ensures last == Some(rs) {
      RegionExactly(t.file, e.offset, e.length, b);
      BlockParsesExactly(b, rs);
    }
  }

  lemma LaidOpens(file: Bytes, t: Opened, data: nat, index: nat, bloom: nat)
    requires t.file == file && RangeRead(t)
    requires Footed(file, data, index, bloom, t.records) && Laid(t, data, index, bloom)
    ensures ParseFile(file) == Some(t)
  {
    hide ReadLe, Region, ParseIndex, Deserialize, At, EntryFits, EncodeIndex, BloomFilter.Forms, FormsAll, BlockAt;
    FooterRead(file, data, index, bloom, t.records);
    hide Footed;
    var f :| |f| == bloom && At(file, data + index, f) && BloomFilter.Forms(f, t.bloom);
    RegionExactly(file, data, index, EncodeIndex(t.index));
    RegionExactly(file, data + index, bloom, f);
    IndexParsesExactly(EncodeIndex(t.index), t.index);
    DeserializesExactly(f, t.bloom);
    if t.index != [] {
      BlockExactly(t);
    }
  }

  // ----- lookups -----

  // A table over an ascending list of records in blocks.
  ghost predicate Over(t: Opened, bs: seq<seq<Record>>) {
    && NonEmpty(bs) && Ascending(Flatten(bs)) && t.index == Entries(bs)
    && forall i :: 0 <= i < |bs| ==> BlockAt(t.file, t.index[i]) == Some(bs[i])
  }

  lemma BuiltIsOver(bs: seq<seq<Record>>, bloom: Filter)
    requires NonEmpty(bs) && AllStorable(Flatten(bs)) && Ascending(Flatten(bs)) && bloom.Valid()
    ensures Over(TableFor(bs, bloom), bs)
  {
    hide BlockAt, FileOf, Less, Flatten, Storable;
    forall i | 0 <= i < |bs| ensures BlockAt(TableFor(bs, bloom).file, Entries(bs)[i]) == Some(bs[i]) {
      BlockReadsBack(bs, bloom.Serialize(), i);
    }
  }

  // First keys ascend along the index.
  lemma IndexAscends(t: Opened, bs: seq<seq<Record>>, i: nat, j: nat)
    requires Over(t, bs) && i < j < |t.index|
    ensures Less(t.index[i].firstKey, t.index[j].firstKey)
  {
    hide Less, Flatten, BlockAt, Ascending, Offset;
    BlocksOrdered(bs, i, j);
    assert bs[i][0] in bs[i] && bs[j][0] in bs[j];
  }

  // std::upper_bound over the index.
  method UpperBound(t: Opened, key: Key, ghost bs: seq<seq<Record>>) returns (p: nat)
    requires Over(t, bs)
    ensures p <= |t.index|
    ensures forall i :: 0 <= i < p ==> AtMost(t.index[i].firstKey, key)
    ensures forall i :: p <= i < |t.index| ==> Less(key, t.index[i].firstKey)
  {
    hide Less, Over;
    KeyOrder();
    forall i: nat, j: nat | i < j < |t.index| ensures Less(t.index[i].firstKey, t.index[j].firstKey) {
      IndexAscends(t, bs, i, j);
    }
    p := 0;
    var hi := |t.index|;
    while p < hi
      invariant p <= hi <= |t.index|
      invariant forall i :: 0 <= i < p ==> AtMost(t.index[i].firstKey, key)
      invariant forall i :: hi <= i < |t.index| ==> Less(key, t.index[i].firstKey)
    {
      var mid := (p + hi) / 2;
      if Less(key, t.index[mid].firstKey) {
        hi := mid;
      } else {
        p := mid + 1;
      }
    }
  }

  function Find(rs: seq<Record>, key: Key): Option<Record> {
    if key in ToMap(rs) then Some(Record(key, ToMap(rs)[key])) else None
  }

  lemma {:induction false} FindInFlatten(bs: seq<seq<Record>>, i: nat, key: Key)
    requires NonEmpty(bs) && Ascending(Flatten(bs)) && i < |bs|
    requires AtMost(bs[i][0].key, key) && (i + 1 < |bs| ==> Less(key, bs[i + 1][0].key))
    ensures Find(Flatten(bs), key) == Find(bs[i], key)
  {
    hide Less, Ascending;
    KeyOrder();
    AscendingParts(bs[0], Flatten(bs[1..]));
    ToMapAppend(bs[0], Flatten(bs[1..]));
    var rest := Flatten(bs[1..]);
    if i == 0 {
      ToMapKeys(rest, key);
      forall x | x in rest ensures x.key != key {
        if |bs| > 1 {
          RestStartsWith(bs[1..]);
          AscendingHead(rest, x);
        }
      }
    } else {
      FindInFlatten(bs[1..], i - 1, key);
      ToMapKeys(bs[0], key);
      assert bs[i][0] in rest by {
        BlockInFlatten(bs[1..], i - 1, bs[i][0]);
      }
      assert forall x :: x in bs[0] ==> Less(x.key, bs[i][0].key);
    }
  }

  lemma RestStartsWith(bs: seq<seq<Record>>)
    requires NonEmpty(bs) && bs != []
    ensures Flatten(bs) != [] && Flatten(bs)[0] == bs[0][0]
  {
  }

  lemma AscendingHead(s: seq<Record>, x: Record)
    requires Ascending(s) && x in s
    ensures AtMost(s[0].key, x.key)
  {
    hide Less;
    KeyOrder();
    var i :| 0 <= i < |s| && s[i] == x;
    if i > 0 {
      assert Less(s[0].key, s[i].key);
    }
  }

  // A key before the first block is nowhere.
  lemma NotBeforeFirst(bs: seq<seq<Record>>, key: Key)
    requires NonEmpty(bs) && Ascending(Flatten(bs)) && (bs != [] ==> Less(key, bs[0][0].key))
    ensures Find(Flatten(bs), key) == None
  {
    hide Less, Ascending;
    KeyOrder();
    ToMapKeys(Flatten(bs), key);
    forall x | x in Flatten(bs) ensures x.key != key {
      if bs != [] {
        RestStartsWith(bs);
        AscendingHead(Flatten(bs), x);
      }
    }
  }

  // get_no_bloom agrees with a linear lookup of the records the table was built from.
  method GetNoBloom(t: Opened, key: Key, ghost bs: seq<seq<Record>>) returns (r: Option<Record>)
    requires Over(t, bs)
    ensures r == Find(Flatten(bs), key)
  {
    hide Less, Flatten, ToMap, Ascending, BlockAt, Offset, Find;
    KeyOrder();
    if t.index == [] {
      NotBeforeFirst(bs, key);
      return None;
    }
    var p := UpperBound(t, key, bs);
    if p == 0 {
      NotBeforeFirst(bs, key);
      return None;
    }
    var recs := ReadBlock(t.file, t.index[p - 1]);
    assert recs == Some(bs[p - 1]);
    FindInFlatten(bs, p - 1, key);
    BlocksOrdered(bs, p - 1, p - 1);
    r := ScanBlock(recs.value, key);
  }

  method ScanBlock(recs: seq<Record>, key: Key) returns (r: Option<Record>)
    requires Ascending(recs)
    ensures r == Find(recs, key)
  {
    hide Less, ToMap;
    KeyOrder();
    ToMapKeys(recs, key);
    var i := 0;
    while i < |recs|
      invariant 0 <= i <= |recs|
      invariant forall j :: 0 <= j < i ==> recs[j].key != key
    {
      if recs[i].key == key {
        ToMapAt(recs, i);
        return Some(recs[i]);
      }
      if Less(key, recs[i].key) {
        assert forall j :: i < j < |recs| ==> Less(recs[i].key, recs[j].key);
        return None;
      }
      i := i + 1;
    }
    r := None;
  }

  // The filter changes no answer: get is get_no_bloom.
  lemma FilterChangesNothing(rs: seq<Record>, f: Filter, key: Key)
    requires f.Valid() && HoldsKeys(f, rs)
    ensures !f.Contains(key) ==> Find(rs, key) == None
  {
    hide ProbeOf;
    ToMapKeys(rs, key);
    if key in ToMap(rs) {
      var i :| 0 <= i < |rs| && rs[i].key == key;
      assert rs[i] in rs;
    }
  }
}
