// The byte format of an SSTable: records, blocks, the sparse index and the footer.
module TableFormat {
  import opened Keys
  import opened Codec
  import opened Records

  // ----- records -----

  predicate PointerFits(b: Body) {
    b.Separated? ==> Fits32(b.ptr.gen) && Fits64(b.ptr.offset) && Fits32(b.ptr.len)
  }

  predicate Storable(r: Record) {
    Fits32(|r.key|) && PointerFits(r.body) && (r.body.Inline? ==> Fits32(|r.body.value|))
  }

  // The high bit of the op byte marks a separated value.
  function OpByte(b: Body): byte {
    match b
    case Inline(_) => 0
    case Deleted => 1
    case Separated(_) => 0x80
  }

  function Payload(b: Body): Bytes {
    match b
    case Inline(v) => U32(|v|) + v
    case Deleted => U32(0)
    case Separated(p) => U32(p.len) + U32(p.gen) + U64(p.offset)
  }

  function Encode(r: Record): (e: Bytes)
    ensures |e| == 5 + |r.key| + |Payload(r.body)| && |e| >= 9
  {
    [OpByte(r.body)] + U32(|r.key|) + r.key + Payload(r.body)
  }

  function EncodeAll(rs: seq<Record>): Bytes {
    if rs == [] then [] else Encode(rs[0]) + EncodeAll(rs[1..])
  }

  // The record at the front of b and its length. None stands for the length errors, and
  // for op bytes that no table contains.
  function Parse(b: Bytes): (r: Option<(Record, nat)>)
    ensures r.Some? ==> 9 <= r.value.1 <= |b|
  {
    if |b| < 5 then None
    else
      var klen := ReadLe(b[1..5]);
      if 5 + klen + 4 > |b| then None
      else
        var p := 5 + klen;
        var key := b[5..p];
        var vlen := ReadLe(b[p..p + 4]);
        if b[0] == 0x80 then
          if p + 16 > |b| then None
          else Some((Record(key, Separated(ValuePtr(ReadLe(b[p + 4..p + 8]), ReadLe(b[p + 8..p + 16]), vlen))), p + 16))
        else if b[0] > 1 || p + 4 + vlen > |b| then None
        else Some((Record(key, if b[0] == 0 then Inline(b[p + 4..p + 4 + vlen]) else Deleted), p + 4 + vlen))
  }

  // Where the fields of an encoded record lie.
  lemma Fields(r: Record)
    ensures var e, p := Encode(r), 5 + |r.key|;
            && e[0] == OpByte(r.body) && e[1..5] == U32(|r.key|) && e[5..p] == r.key && e[p..] == Payload(r.body)
  {
    hide U32, OpByte, Payload;
    var p := 5 + |r.key|;
    var a, b, e := [OpByte(r.body)] + U32(|r.key|), [OpByte(r.body)] + U32(|r.key|) + r.key, Encode(r);
    assert e == b + Payload(r.body) && b == a + r.key;
    assert e[..p] == b && b[..5] == a;
    assert e[5..p] == b[5..] == r.key;
    assert e[1..5] == a[1..] == U32(|r.key|);
  }

  lemma PayloadFields(b: Body)
    requires PointerFits(b) && (b.Inline? ==> Fits32(|b.value|))
    ensures var p := Payload(b);
            match b
            case Inline(v) => |p| == 4 + |v| && ReadLe(p[..4]) == |v| && p[4..] == v
            case Deleted => |p| == 4 && ReadLe(p[..4]) == 0
            case Separated(q) =>
              |p| == 16 && ReadLe(p[..4]) == q.len && ReadLe(p[4..8]) == q.gen && ReadLe(p[8..16]) == q.offset
  {
    hide ReadLe, U32, U64;
    var p := Payload(b);
    match b
    case Inline(v) =>
      U32RoundTrip(|v|);
      assert p[..4] == U32(|v|);
    case Deleted =>
      U32RoundTrip(0);
      assert p[..4] == U32(0);
    case Separated(q) =>
      U32RoundTrip(q.len);
      U32RoundTrip(q.gen);
      U64RoundTrip(q.offset);
      assert p[..4] == U32(q.len) && p[4..8] == U32(q.gen) && p[8..16] == U64(q.offset);
  }

  lemma ParseEncoded(r: Record, rest: Bytes)
    requires Storable(r)
    ensures Parse(Encode(r) + rest) == Some((r, |Encode(r)|))
  {
    hide ReadLe, U32, Encode, Payload;
    var e, p, pay := Encode(r), 5 + |r.key|, Payload(r.body);
    var b := e + rest;
    Fields(r);
    U32RoundTrip(|r.key|);
    PayloadFields(r.body);
    assert b[0] == e[0] && b[1..5] == e[1..5] && b[5..p] == e[5..p];
    assert b[p..p + 4] == e[p..][..4] == pay[..4];
    match r.body
    case Inline(v) =>
      assert b[p + 4..p + 4 + |v|] == e[p..][4..] == pay[4..];
    case Deleted =>
    case Separated(q) =>
      assert b[p + 4..p + 8] == e[p..][4..8] == pay[4..8];
      assert b[p + 8..p + 16] == e[p..][8..16] == pay[8..16];
  }

  // The bytes that stand for a record: op 0 and the value, op 1 and any value, or op 0x80
  // with the length of the value and then its generation and offset in the value log.
  ghost predicate Forms(b: Bytes, r: Record) {
    match r.body
    case Inline(v) => Framed(b, 0, r.key, v)
    case Deleted => exists v :: Framed(b, 1, r.key, v)
    case Separated(p) => b == [0x80] + U32(|r.key|) + r.key + U32(p.len) + U32(p.gen) + U64(p.offset)
  }

  // What build writes; a delete carries no value.
  lemma EncodedForm(r: Record)
    requires Storable(r)
    ensures Forms(Encode(r), r)
    ensures r.body == Deleted ==> Framed(Encode(r), 1, r.key, [])
  {
    hide U32, U64;
    match r.body
    case Inline(v) =>
      assert Encode(r) == [0] + U32(|r.key|) + r.key + U32(|v|) + v;
    case Deleted =>
      assert Encode(r) == [1] + U32(|r.key|) + r.key + U32(0) + [];
      assert Framed(Encode(r), 1, r.key, []);
    case Separated(p) =>
      assert Encode(r) == [0x80] + U32(|r.key|) + r.key + U32(p.len) + U32(p.gen) + U64(p.offset);
  }

  // A record is read exactly where the bytes of one stand.
  lemma ParsesExactly(b: Bytes, r: Record, n: nat)
    ensures Parse(b) == Some((r, n)) <==> Storable(r) && n <= |b| && Forms(b[..n], r)
  {
    hide U32, U64, ReadLe, Framed, Parse, Encode, Storable, Forms;
    if Parse(b) == Some((r, n)) {
      ParsedForm(b);
    }
    if Storable(r) && n <= |b| && Forms(b[..n], r) {
      FormParses(b, r, n);
    }
  }

  lemma ParsedForm(b: Bytes)
    requires Parse(b).Some?
    ensures var (r, n) := Parse(b).value; Storable(r) && Forms(b[..n], r)
  {
    hide Le, ReadLe, Framed;
    Widths();
    var (r, n) := Parse(b).value;
    var p := 5 + |r.key|;
    ReadLeRoundTrip(b[1..5]);
    ReadLeRoundTrip(b[p..p + 4]);
    if b[0] == 0x80 {
      ReadLeRoundTrip(b[p + 4..p + 8]);
      ReadLeRoundTrip(b[p + 8..p + 16]);
      assert b[..n] == [b[0]] + b[1..5] + b[5..p] + b[p..p + 4] + b[p + 4..p + 8] + b[p + 8..p + 16];
    } else {
      FrameAt(b, n);
    }
  }

  lemma FormParses(b: Bytes, r: Record, n: nat)
    requires Storable(r) && n <= |b| && Forms(b[..n], r)
    ensures Parse(b) == Some((r, n))
  {
    hide U32, U64, ReadLe, Framed, Encode;
    var c, p := b[..n], 5 + |r.key|;
    if r.body.Separated? {
      EncodedForm(r);
      ParseEncoded(r, b[n..]);
      assert b == Encode(r) + b[n..];
    } else {
      var op, v :| Framed(c, op, r.key, v) && op == (if r.body.Inline? then 0 else 1) &&
        (r.body.Inline? ==> r.body.value == v);
      FrameFields(c, op, r.key, v);
      assert b[1..5] == c[1..5] && b[5..p] == c[5..p] && b[p..p + 4] == c[p..p + 4] && b[p + 4..n] == c[p + 4..];
    }
  }

  // Whatever the bytes, the lengths read are 32-bit ones.
  lemma ParsedLengths(b: Bytes)
    requires Parse(b).Some?
    ensures var r := Parse(b).value.0;
            && Fits32(|r.key|) && (r.body.Inline? ==> Fits32(|r.body.value|))
            && (r.body.Separated? ==> Fits32(r.body.ptr.len))
  {
    hide ReadLe, Le;
    Widths();
    ReadLeRoundTrip(b[1..5]);
    var p := 5 + ReadLe(b[1..5]);
    ReadLeRoundTrip(b[p..p + 4]);
  }

  // A whole block.
  function ParseAll(b: Bytes): Option<seq<Record>>
    decreases |b|
  {
    if b == [] then Some([])
    else
      match Parse(b)
      case None => None
      case Some((r, n)) =>
        match ParseAll(b[n..])
        case None => None
        case Some(rs) => Some([r] + rs)
  }

  ghost predicate AllStorable(rs: seq<Record>) {
    forall r :: r in rs ==> Storable(r)
  }

  lemma NothingParsed()
    ensures ParseAll([]) == Some([])
  {
  }

  lemma ParseAllUnfolds(b: Bytes, r: Record, n: nat)
    requires Parse(b) == Some((r, n)) && n <= |b|
    ensures ParseAll(b) == if ParseAll(b[n..]) == None then None else Some([r] + ParseAll(b[n..]).value)
  {
    hide Parse;
    assert b != [] by {
      ParsedIsNotEmpty(b);
    }
  }

  lemma ParsedIsNotEmpty(b: Bytes)
    requires Parse(b).Some?
    ensures b != []
  {
  }

  lemma {:induction false} ParseAllEncoded(rs: seq<Record>)
    requires AllStorable(rs)
    ensures ParseAll(EncodeAll(rs)) == Some(rs)
  {
    hide Parse, Encode, Storable, ParseAll;
    if rs == [] {
      NothingParsed();
    } else {
      var e := Encode(rs[0]);
      ParseEncoded(rs[0], EncodeAll(rs[1..]));
      Parts(e, EncodeAll(rs[1..]));
      ParseAllEncoded(rs[1..]);
      ParseAllUnfolds(e + EncodeAll(rs[1..]), rs[0], |e|);
      assert rs == [rs[0]] + rs[1..];
    }
  }

  // The bytes that stand for a list of records, one after another.
  ghost predicate FormsAll(b: Bytes, rs: seq<Record>)
    decreases |rs|
  {
    if rs == [] then b == []
    else exists n: nat :: 0 < n <= |b| && Storable(rs[0]) && Forms(b[..n], rs[0]) && FormsAll(b[n..], rs[1..])
  }

  // A block is accepted exactly when it is records one after another, nothing left over.
  lemma {:induction false} BlockParsesExactly(b: Bytes, rs: seq<Record>)
    ensures ParseAll(b) == Some(rs) <==> FormsAll(b, rs)
    decreases |b|
  {
    hide Parse, Forms, Storable;
    if b == [] {
      assert rs != [] ==> !FormsAll(b, rs);
    } else {
      if ParseAll(b) == Some(rs) {
        var (r, n) := Parse(b).value;
        assert rs[0] == r && ParseAll(b[n..]) == Some(rs[1..]);
        ParsesExactly(b, r, n);
        BlockParsesExactly(b[n..], rs[1..]);
      }
      if FormsAll(b, rs) {
        var n: nat :| 0 < n <= |b| && Storable(rs[0]) && Forms(b[..n], rs[0]) && FormsAll(b[n..], rs[1..]);
        ParsesExactly(b, rs[0], n);
        BlockParsesExactly(b[n..], rs[1..]);
        assert rs == [rs[0]] + rs[1..];
      }
    }
  }

  lemma {:induction false} EncodeAllConcat(a: seq<Record>, b: seq<Record>)
    ensures EncodeAll(a + b) == EncodeAll(a) + EncodeAll(b)
  {
    hide Encode;
    if a == [] {
      Nothing(b);
      Nothing(EncodeAll(b));
    } else {
      assert (a + b)[0] == a[0] && (a + b)[1..] == a[1..] + b;
      EncodeAllConcat(a[1..], b);
      Assoc(Encode(a[0]), EncodeAll(a[1..]), EncodeAll(b));
    }
  }

  // ----- blocks -----

  function Flatten(bs: seq<seq<Record>>): seq<Record> {
    if bs == [] then [] else bs[0] + Flatten(bs[1..])
  }

  ghost predicate NonEmpty(bs: seq<seq<Record>>) {
    forall i :: 0 <= i < |bs| ==> bs[i] != []
  }

  lemma {:induction false} FlattenSnoc(bs: seq<seq<Record>>, b: seq<Record>)
    ensures Flatten(bs + [b]) == Flatten(bs) + b
  {
    if bs == [] {
      assert [b][1..] == [];
    } else {
      assert (bs + [b])[1..] == bs[1..] + [b];
      FlattenSnoc(bs[1..], b);
    }
  }

  // Byte offset of block i in the data region.
  function Offset(bs: seq<seq<Record>>, i: nat): nat
    requires i <= |bs|
  {
    if i == 0 then 0 else |EncodeAll(bs[0])| + Offset(bs[1..], i - 1)
  }

  // The bytes of block i stand at its offset.
  lemma {:induction false} BlockBytes(bs: seq<seq<Record>>, i: nat)
    requires i < |bs|
    ensures Offset(bs, i) + |EncodeAll(bs[i])| <= |EncodeAll(Flatten(bs))|
    ensures EncodeAll(Flatten(bs))[Offset(bs, i)..Offset(bs, i) + |EncodeAll(bs[i])|] == EncodeAll(bs[i])
  {
    hide EncodeAll;
    EncodeAllConcat(bs[0], Flatten(bs[1..]));
    var head, rest := EncodeAll(bs[0]), EncodeAll(Flatten(bs[1..]));
    if i > 0 {
      BlockBytes(bs[1..], i - 1);
      SliceShift(head, rest, Offset(bs[1..], i - 1), |EncodeAll(bs[i])|);
    } else {
      assert (head + rest)[0..|head|] == head;
    }
  }

  lemma SliceShift(head: Bytes, rest: Bytes, o: nat, n: nat)
    requires o + n <= |rest|
    ensures (head + rest)[|head| + o..|head| + o + n] == rest[o..o + n]
  {
  }

  // ----- the sparse index -----

  datatype IndexEntry = IndexEntry(firstKey: Key, offset: nat, length: nat)

  function EncodeEntry(e: IndexEntry): Bytes {
    U32(|e.firstKey|) + e.firstKey + U64(e.offset) + U64(e.length)
  }

  function EncodeIndex(es: seq<IndexEntry>): Bytes {
    if es == [] then [] else EncodeEntry(es[0]) + EncodeIndex(es[1..])
  }

  lemma {:induction false} EncodeIndexSnoc(es: seq<IndexEntry>, e: IndexEntry)
    ensures EncodeIndex(es + [e]) == EncodeIndex(es) + EncodeEntry(e)
  {
    hide EncodeEntry;
    if es == [] {
      Nothing([e]);
      assert [e][1..] == [];
      Nothing(EncodeEntry(e));
    } else {
      assert (es + [e])[0] == es[0] && (es + [e])[1..] == es[1..] + [e];
      EncodeIndexSnoc(es[1..], e);
      Assoc(EncodeEntry(es[0]), EncodeIndex(es[1..]), EncodeEntry(e));
    }
  }

  // None stands for the torn-index errors.
  function ParseEntry(b: Bytes): (r: Option<(IndexEntry, nat)>)
    ensures r.Some? ==> 20 <= r.value.1 <= |b|
  {
    if |b| < 4 then None
    else
      var klen := ReadLe(b[..4]);
      if 4 + klen + 16 > |b| then None
      else
        var p := 4 + klen;
        Some((IndexEntry(b[4..p], ReadLe(b[p..p + 8]), ReadLe(b[p + 8..p + 16])), p + 16))
  }

  function ParseIndex(b: Bytes): Option<seq<IndexEntry>>
    decreases |b|
  {
    if b == [] then Some([])
    else
      match ParseEntry(b)
      case None => None
      case Some((e, n)) =>
        match ParseIndex(b[n..])
        case None => None
        case Some(es) => Some([e] + es)
  }

  predicate EntryFits(e: IndexEntry) {
    Fits32(|e.firstKey|) && Fits64(e.offset) && Fits64(e.length)
  }

  lemma ParseEntryEncoded(e: IndexEntry, rest: Bytes)
    requires EntryFits(e)
    ensures ParseEntry(EncodeEntry(e) + rest) == Some((e, |EncodeEntry(e)|))
  {
    hide ReadLe, U32, U64;
    var c := EncodeEntry(e);
    var b, p := c + rest, 4 + |e.firstKey|;
    U32RoundTrip(|e.firstKey|);
    U64RoundTrip(e.offset);
    U64RoundTrip(e.length);
    assert c[..4] == U32(|e.firstKey|) && c[4..p] == e.firstKey;
    assert c[p..p + 8] == U64(e.offset) && c[p + 8..p + 16] == U64(e.length);
    assert b[..4] == c[..4] && b[4..p] == c[4..p] && b[p..p + 8] == c[p..p + 8] && b[p + 8..p + 16] == c[p + 8..p + 16];
  }

  // Where the fields of an index entry lie.
  lemma EntryFields(e: IndexEntry)
    requires EntryFits(e)
    ensures var c, p := EncodeEntry(e), 4 + |e.firstKey|;
            && |c| == p + 16 && ReadLe(c[..4]) == |e.firstKey| && c[4..p] == e.firstKey
            && ReadLe(c[p..p + 8]) == e.offset && ReadLe(c[p + 8..p + 16]) == e.length
  {
    hide ReadLe, U32, U64;
    var c, p := EncodeEntry(e), 4 + |e.firstKey|;
    U32RoundTrip(|e.firstKey|);
    U64RoundTrip(e.offset);
    U64RoundTrip(e.length);
    assert c[..4] == U32(|e.firstKey|) && c[4..p] == e.firstKey;
    assert c[p..p + 8] == U64(e.offset) && c[p + 8..p + 16] == U64(e.length);
  }

  // An entry is read exactly where the bytes of one stand.
  lemma ParsedEntry(b: Bytes)
    requires ParseEntry(b).Some?
    ensures var (e, n) := ParseEntry(b).value; EntryFits(e) && b[..n] == EncodeEntry(e)
  {
    hide ReadLe, Le;
    Widths();
    var (e, n) := ParseEntry(b).value;
    var p := 4 + |e.firstKey|;
    ReadLeRoundTrip(b[..4]);
    ReadLeRoundTrip(b[p..p + 8]);
    ReadLeRoundTrip(b[p + 8..p + 16]);
    assert b[..n] == b[..4] + b[4..p] + b[p..p + 8] + b[p + 8..p + 16];
  }

  lemma {:induction false} ParsedIndex(b: Bytes)
    requires ParseIndex(b).Some?
    ensures (forall e :: e in ParseIndex(b).value ==> EntryFits(e)) && b == EncodeIndex(ParseIndex(b).value)
    decreases |b|
  {
    hide ParseEntry, EncodeEntry, EntryFits;
    if b != [] {
      var (e, n) := ParseEntry(b).value;
      ParsedEntry(b);
      ParsedIndex(b[n..]);
      assert b == b[..n] + b[n..];
    }
  }

  // An index is accepted exactly when its bytes are those of its entries, nothing left over.
  lemma IndexParsesExactly(b: Bytes, es: seq<IndexEntry>)
    ensures ParseIndex(b) == Some(es) <==> (forall e :: e in es ==> EntryFits(e)) && b == EncodeIndex(es)
  {
    hide ParseIndex, EncodeIndex, EntryFits;
    if ParseIndex(b) == Some(es) {
      ParsedIndex(b);
    }
    if (forall e :: e in es ==> EntryFits(e)) && b == EncodeIndex(es) {
      ParseIndexEncoded(es);
    }
  }

  lemma {:induction false} ParseIndexEncoded(es: seq<IndexEntry>)
    requires forall e :: e in es ==> EntryFits(e)
    ensures ParseIndex(EncodeIndex(es)) == Some(es)
  {
    hide ParseEntry, EncodeEntry, EntryFits, ParseIndex;
    if es == [] {
      NoIndexParsed();
    } else {
      var e := EncodeEntry(es[0]);
      ParseEntryEncoded(es[0], EncodeIndex(es[1..]));
      Parts(e, EncodeIndex(es[1..]));
      ParseIndexEncoded(es[1..]);
      ParseIndexUnfolds(e + EncodeIndex(es[1..]), es[0], |e|);
      assert es == [es[0]] + es[1..];
    }
  }

  lemma NoIndexParsed()
    ensures ParseIndex([]) == Some([])
  {
  }

  lemma ParseIndexUnfolds(b: Bytes, e: IndexEntry, n: nat)
    requires ParseEntry(b) == Some((e, n)) && n <= |b|
    ensures ParseIndex(b) == if ParseIndex(b[n..]) == None then None else Some([e] + ParseIndex(b[n..]).value)
  {
    hide ParseEntry;
    assert b != [] by {
      ParsedEntryIsNotEmpty(b);
    }
  }

  lemma ParsedEntryIsNotEmpty(b: Bytes)
    requires ParseEntry(b).Some?
    ensures b != []
  {
  }

  function Entries(bs: seq<seq<Record>>): seq<IndexEntry>
    requires forall i :: 0 <= i < |bs| ==> bs[i] != []
  {
    seq(|bs|, i requires 0 <= i < |bs| => IndexEntry(bs[i][0].key, Offset(bs, i), |EncodeAll(bs[i])|))
  }

  lemma {:induction false} OffsetSnoc(bs: seq<seq<Record>>, b: seq<Record>, i: nat)
    requires i <= |bs|
    ensures Offset(bs + [b], i) == Offset(bs, i)
    ensures Offset(bs, |bs|) == |EncodeAll(Flatten(bs))|
  {
    if i > 0 {
      assert (bs + [b])[1..] == bs[1..] + [b];
      OffsetSnoc(bs[1..], b, i - 1);
    } else if bs != [] {
      OffsetSnoc(bs[1..], b, 0);
    }
    if bs != [] {
      EncodeAllConcat(bs[0], Flatten(bs[1..]));
    }
  }

  lemma EntriesSnoc(bs: seq<seq<Record>>, b: seq<Record>)
    requires NonEmpty(bs) && b != []
    ensures NonEmpty(bs + [b])
    ensures Entries(bs + [b]) == Entries(bs) + [IndexEntry(b[0].key, |EncodeAll(Flatten(bs))|, |EncodeAll(b)|)]
  {
    hide EncodeAll, Flatten, Offset;
    var all := bs + [b];
    forall i | 0 <= i < |all|
      ensures Entries(all)[i] == (Entries(bs) + [IndexEntry(b[0].key, |EncodeAll(Flatten(bs))|, |EncodeAll(b)|)])[i]
    {
      OffsetSnoc(bs, b, i);
    }
  }

  // ----- the file -----

  const MAGIC: Bytes := [76, 83, 77, 75, 86, 83, 83, 84]
  const FOOTER_SIZE := 40
  const BLOCK_SIZE := 4096

  function Footer(dataSize: nat, indexSize: nat, bloomSize: nat, records: nat): (f: Bytes)
    ensures |f| == FOOTER_SIZE
  {
    U64(dataSize) + U64(indexSize) + U64(bloomSize) + U64(records) + MAGIC
  }

  // The file of a block list: data, index, filter, footer.
  function FileOf(bs: seq<seq<Record>>, bloom: Bytes): Bytes
    requires forall i :: 0 <= i < |bs| ==> bs[i] != []
  {
    var data := EncodeAll(Flatten(bs));
    var index := EncodeIndex(Entries(bs));
    data + index + bloom + Footer(|data|, |index|, |bloom|, |Flatten(bs)|)
  }

  // ----- order across blocks -----

  lemma AscendingParts(a: seq<Record>, b: seq<Record>)
    requires Ascending(a + b)
    ensures Ascending(a) && Ascending(b)
    ensures forall x, y :: x in a && y in b ==> Less(x.key, y.key)
  {
    hide Less;
    var c := a + b;
    assert forall i :: 0 <= i < |a| ==> c[i] == a[i];
    assert forall j :: 0 <= j < |b| ==> c[|a| + j] == b[j];
    forall x, y | x in a && y in b ensures Less(x.key, y.key) {
      var i :| 0 <= i < |a| && a[i] == x;
      var j :| 0 <= j < |b| && b[j] == y;
      assert Less(c[i].key, c[|a| + j].key);
    }
  }

  lemma {:induction false} BlockInFlatten(bs: seq<seq<Record>>, i: nat, r: Record)
    requires i < |bs| && r in bs[i]
    ensures r in Flatten(bs)
  {
    if i > 0 {
      BlockInFlatten(bs[1..], i - 1, r);
    }
  }

  lemma {:induction false} BlocksOrdered(bs: seq<seq<Record>>, i: nat, j: nat)
    requires Ascending(Flatten(bs)) && i < |bs| && j < |bs|
    ensures Ascending(bs[i])
    ensures i < j ==> forall x, y :: x in bs[i] && y in bs[j] ==> Less(x.key, y.key)
  {
    hide Less, Ascending;
    AscendingParts(bs[0], Flatten(bs[1..]));
    if i > 0 {
      BlocksOrdered(bs[1..], i - 1, if j > 0 then j - 1 else 0);
    } else if j > 0 {
      forall x, y | x in bs[0] && y in bs[j] ensures Less(x.key, y.key) {
        BlockInFlatten(bs[1..], j - 1, y);
      }
    }
  }
}
