// The write-ahead log: [op:1][klen:4][key][vlen:4][value] records, and a replay that
// stops at the first record not wholly there.
module WriteAheadLog {
  import opened Keys
  import opened Codec
  import opened Records

  // The records a log may hold: puts with their value, deletes.
  predicate Loggable(r: Record) {
    Fits32(|r.key|) && !r.body.Separated? && (r.body.Inline? ==> Fits32(|r.body.value|))
  }

  function OpByte(b: Body): byte {
    if b.Inline? then 0 else 1
  }

  function ValueBytes(b: Body): Bytes {
    if b.Inline? then b.value else []
  }

  function Encode(r: Record): (e: Bytes)
    ensures |e| == 9 + |r.key| + |ValueBytes(r.body)|
  {
    [OpByte(r.body)] + U32(|r.key|) + r.key + U32(|ValueBytes(r.body)|) + ValueBytes(r.body)
  }

  function EncodeAll(rs: seq<Record>): Bytes {
    if rs == [] then [] else Encode(rs[0]) + EncodeAll(rs[1..])
  }

  // Recovery applies op 0 as a put and every other op as a delete.
  function BodyOf(op: byte, value: Bytes): Body {
    if op == 0 then Inline(value) else Deleted
  }

  // The record at the front of b and its length, or None if it is torn.
  function Parse(b: Bytes): (r: Option<(Record, nat)>)
    ensures r.Some? ==> 9 <= r.value.1 <= |b|
  {
    if |b| < 5 then None
    else
      var klen := ReadLe(b[1..5]);
      if 5 + klen + 4 > |b| then None
      else
        var vlen := ReadLe(b[5 + klen..9 + klen]);
        if 9 + klen + vlen > |b| then None
        else Some((Record(b[5..5 + klen], BodyOf(b[0], b[9 + klen..9 + klen + vlen])), 9 + klen + vlen))
  }

  // The bytes that stand for a record: op 0 and the value, or any other op and any value.
  ghost predicate Forms(b: Bytes, r: Record) {
    match r.body
    case Inline(v) => Framed(b, 0, r.key, v)
    case Deleted => exists op, v :: op != 0 && Framed(b, op, r.key, v)
    case Separated(_) => false
  }

  // What append writes: op 0 for a put, op 1 and no value for a delete.
  lemma EncodedForm(r: Record)
    requires Loggable(r)
    ensures Framed(Encode(r), if r.body.Inline? then 0 else 1, r.key, if r.body.Inline? then r.body.value else [])
    ensures Forms(Encode(r), r)
  {
    assert r.body == Deleted ==> Framed(Encode(r), 1, r.key, []);
  }

  // A record is read exactly where the bytes of one stand.
  lemma ParsesExactly(b: Bytes, r: Record, n: nat)
    ensures Parse(b) == Some((r, n)) <==> n <= |b| && Forms(b[..n], r)
  {
    hide U32, ReadLe, Framed;
    if Parse(b) == Some((r, n)) {
      FrameAt(b, n);
    }
    if n <= |b| && Forms(b[..n], r) {
      var op, v :| Framed(b[..n], op, r.key, v) && r.body == BodyOf(op, v);
      FrameFields(b[..n], op, r.key, v);
      var c, p := b[..n], 5 + |r.key|;
      assert b[1..5] == c[1..5] && b[5..p] == c[5..p] && b[p..p + 4] == c[p..p + 4] && b[p + 4..n] == c[p + 4..];
    }
  }

  function Replay(b: Bytes): seq<Record>
    decreases |b|
  {
    match Parse(b)
    case None => []
    case Some((r, n)) => [r] + Replay(b[n..])
  }

  // The bytes replay leaves unread.
  function Tail(b: Bytes): Bytes
    decreases |b|
  {
    match Parse(b)
    case None => b
    case Some((r, n)) => Tail(b[n..])
  }

  // ----- the file -----

  class Log {
    var data: Bytes
    var synced: nat

    ghost predicate Valid()
      reads this
    {
      synced <= |data|
    }

    constructor (onDisk: Bytes, truncate: bool)
      ensures Valid() && data == (if truncate then [] else onDisk) && synced == 0
    {
      data := if truncate then [] else onDisk;
      synced := 0;
    }

    method Append(r: Record, sync: bool) returns (ok: bool)
      requires Valid() && !r.body.Separated?
      modifies this
      ensures Valid()
      ensures ok <==> Loggable(r)
      ensures data == if ok then old(data) + Encode(r) else old(data)
      ensures synced == if ok && sync then |data| else old(synced)
    {
      if |r.key| > 0xffff_ffff || |ValueBytes(r.body)| > 0xffff_ffff {
        return false;
      }
      var buf := [OpByte(r.body)];
      buf := buf + U32(|r.key|);
      buf := buf + r.key;
      buf := buf + U32(|ValueBytes(r.body)|);
      buf := buf + ValueBytes(r.body);
      data := data + buf;
      if sync {
        synced := |data|;
      }
      ok := true;
    }
  }

  // replay: one moving position, four torn-record checks.
  method ReplayLog(data: Bytes) returns (records: seq<Record>)
    ensures records == Replay(data)
  {
    hide ReadLe, Replay, Parse;
    records := [];
    var pos := 0;
    assert data[0..] == data;
    while pos < |data|
      invariant 0 <= pos <= |data|
      invariant records + Replay(data[pos..]) == Replay(data)
    {
      if pos + 1 + 4 > |data| {
        ParseStops(data, pos);
        assert records + [] == records;
        return;
      }
      var op := data[pos];
      var p := pos + 1;
      var klen := ReadLe(data[p..p + 4]);
      p := p + 4;
      if p + klen > |data| {
        ParseStops(data, pos);
        assert records + [] == records;
        return;
      }
      var key := data[p..p + klen];
      p := p + klen;
      if p + 4 > |data| {
        ParseStops(data, pos);
        assert records + [] == records;
        return;
      }
      var vlen := ReadLe(data[p..p + 4]);
      p := p + 4;
      if p + vlen > |data| {
        ParseStops(data, pos);
        assert records + [] == records;
        return;
      }
      var value := data[p..p + vlen];
      p := p + vlen;
      ParseGoesOn(data, pos, records);
      records := records + [Record(key, BodyOf(op, value))];
      pos := p;
    }
    ParseStops(data, pos);
    assert records + [] == records;
  }

  // The record at pos is not wholly there.
  ghost predicate TornAt(data: Bytes, pos: nat)
    requires pos <= |data|
  {
    || pos + 5 > |data|
    || var klen := ReadLe(data[pos + 1..pos + 5]);
       || pos + 9 + klen > |data|
       || pos + 9 + klen + ReadLe(data[pos + 5 + klen..pos + 9 + klen]) > |data|
  }

  lemma ParseStops(data: Bytes, pos: nat)
    requires pos <= |data| && TornAt(data, pos)
    ensures Replay(data[pos..]) == []
  {
    hide ReadLe, BodyOf;
    var b := data[pos..];
    if |b| >= 5 {
      assert b[1..5] == data[pos + 1..pos + 5];
      var klen := ReadLe(b[1..5]);
      if 9 + klen <= |b| {
        assert b[5 + klen..9 + klen] == data[pos + 5 + klen..pos + 9 + klen];
      }
    }
    assert Parse(b) == None;
  }

  lemma ParseGoesOn(data: Bytes, pos: nat, records: seq<Record>)
    requires pos <= |data| && !TornAt(data, pos)
    ensures var klen := ReadLe(data[pos + 1..pos + 5]);
            var vlen := ReadLe(data[pos + 5 + klen..pos + 9 + klen]);
            var end := pos + 9 + klen + vlen;
            var r := Record(data[pos + 5..pos + 5 + klen], BodyOf(data[pos], data[pos + 9 + klen..end]));
            records + Replay(data[pos..]) == (records + [r]) + Replay(data[end..])
  {
    hide ReadLe, BodyOf, Replay;
    var klen := ReadLe(data[pos + 1..pos + 5]);
    var vlen := ReadLe(data[pos + 5 + klen..pos + 9 + klen]);
    var n := 9 + klen + vlen;
    var r := Record(data[pos + 5..pos + 5 + klen], BodyOf(data[pos], data[pos + 9 + klen..pos + n]));
    ParseAt(data, pos);
    ReplayUnfolds(data[pos..], r, n);
    assert data[pos..][n..] == data[pos + n..];
    Assoc(records, [r], Replay(data[pos + n..]));
  }

  lemma ReplayUnfolds(b: Bytes, r: Record, n: nat)
    requires Parse(b) == Some((r, n)) && n <= |b|
    ensures Replay(b) == [r] + Replay(b[n..])
  {
    hide Parse;
  }

  lemma ParseAt(data: Bytes, pos: nat)
    requires pos <= |data| && !TornAt(data, pos)
    ensures var klen := ReadLe(data[pos + 1..pos + 5]);
            var vlen := ReadLe(data[pos + 5 + klen..pos + 9 + klen]);
            var n := 9 + klen + vlen;
            var r := Record(data[pos + 5..pos + 5 + klen], BodyOf(data[pos], data[pos + 9 + klen..pos + n]));
            Parse(data[pos..]) == Some((r, n))
  {
    hide ReadLe, BodyOf;
    var klen := ReadLe(data[pos + 1..pos + 5]);
    var vlen := ReadLe(data[pos + 5 + klen..pos + 9 + klen]);
    Shifted(data, pos, 1, 5);
    Shifted(data, pos, 5 + klen, 9 + klen);
    Shifted(data, pos, 5, 5 + klen);
    Shifted(data, pos, 9 + klen, 9 + klen + vlen);
    assert data[pos..][0] == data[pos];
  }

  // ----- round trip and truncation -----

  // Where the fields of an encoded record lie.
  lemma Fields(r: Record)
    ensures var e, v, klen := Encode(r), ValueBytes(r.body), |r.key|;
            && |e| == 9 + klen + |v|
            && e[0] == OpByte(r.body) && e[1..5] == U32(klen) && e[5..5 + klen] == r.key
            && e[5 + klen..9 + klen] == U32(|v|) && e[9 + klen..] == v
  {
    hide U32, OpByte, ValueBytes;
    var v, klen := ValueBytes(r.body), |r.key|;
    var head := [OpByte(r.body)];
    var a, b, c, d := head + U32(klen), head + U32(klen) + r.key, head + U32(klen) + r.key + U32(|v|), Encode(r);
    assert d == c + v && c == b + U32(|v|) && b == a + r.key;
    assert d[..|c|] == c && c[..|b|] == b && b[..|a|] == a;
    assert d[|c|..] == v;
    assert d[5 + klen..9 + klen] == c[|b|..] == U32(|v|);
    assert d[5..5 + klen] == b[|a|..] == r.key;
    assert d[1..5] == a[1..] == U32(klen);
  }

  lemma ParseEncoded(r: Record, rest: Bytes)
    requires Loggable(r)
    ensures Parse(Encode(r) + rest) == Some((r, |Encode(r)|))
  {
    hide ReadLe, U32, Encode;
    var e, v, klen := Encode(r), ValueBytes(r.body), |r.key|;
    var b := e + rest;
    Fields(r);
    U32RoundTrip(klen);
    U32RoundTrip(|v|);
    assert b[1..5] == e[1..5];
    assert b[5 + klen..9 + klen] == e[5 + klen..9 + klen];
    assert b[5..5 + klen] == e[5..5 + klen];
    assert b[9 + klen..9 + klen + |v|] == e[9 + klen..];
    assert b[0] == e[0];
  }

  lemma ParseTorn(r: Record, n: nat)
    requires Loggable(r) && n < |Encode(r)|
    ensures Parse(Encode(r)[..n]) == None
  {
    hide ReadLe, U32, Encode, BodyOf;
    var e, v, klen := Encode(r), ValueBytes(r.body), |r.key|;
    var b := e[..n];
    Fields(r);
    U32RoundTrip(klen);
    U32RoundTrip(|v|);
    if n >= 5 {
      assert b[1..5] == e[1..5];
      if n >= 9 + klen {
        assert b[5 + klen..9 + klen] == e[5 + klen..9 + klen];
      }
    }
  }

  // How many whole records the first n bytes hold.
  function WholeRecords(rs: seq<Record>, n: nat): (j: nat)
    ensures j <= |rs|
  {
    if rs == [] || n < |Encode(rs[0])| then 0 else 1 + WholeRecords(rs[1..], n - |Encode(rs[0])|)
  }

  // That count is the length of the longest prefix of records that fits.
  lemma {:induction false} WholeRecordsLongest(rs: seq<Record>, n: nat)
    ensures var j := WholeRecords(rs, n);
            |EncodeAll(rs[..j])| <= n && (j < |rs| ==> n < |EncodeAll(rs[..j + 1])|)
  {
    if rs != [] && n >= |Encode(rs[0])| {
      var m := n - |Encode(rs[0])|;
      var j := WholeRecords(rs[1..], m);
      WholeRecordsLongest(rs[1..], m);
      assert rs[..j + 1][0] == rs[0] && rs[..j + 1][1..] == rs[1..][..j];
      if j + 1 < |rs| {
        assert rs[..j + 2][0] == rs[0] && rs[..j + 2][1..] == rs[1..][..j + 1];
      }
    } else if rs != [] {
      assert rs[..1][1..] == [];
      assert EncodeAll(rs[..1]) == Encode(rs[0]) + [];
    }
  }

  // Replaying any byte truncation of a log returns exactly the records wholly in it.
  lemma {:induction false} ReplayTruncated(rs: seq<Record>, n: nat)
    requires (forall r :: r in rs ==> Loggable(r)) && n <= |EncodeAll(rs)|
    ensures Replay(EncodeAll(rs)[..n]) == rs[..WholeRecords(rs, n)]
  {
    hide Parse;
    if rs == [] {
      ParseNothing();
    } else {
      var e := Encode(rs[0]);
      var b := EncodeAll(rs)[..n];
      if n < |e| {
        assert b == e[..n];
        ParseTorn(rs[0], n);
      } else {
        var rest := EncodeAll(rs[1..])[..n - |e|];
        assert b == e + rest;
        ParseEncoded(rs[0], rest);
        assert b[|e|..] == rest;
        ReplayTruncated(rs[1..], n - |e|);
        assert rs[..1 + WholeRecords(rs[1..], n - |e|)] == [rs[0]] + rs[1..][..WholeRecords(rs[1..], n - |e|)];
      }
    }
  }

  lemma ParseNothing()
    ensures Parse([]) == None
  {
  }

  // The untruncated log round-trips, for arbitrary bytes in keys and values.
  lemma ReplayRoundTrip(rs: seq<Record>)
    requires forall r :: r in rs ==> Loggable(r)
    ensures Replay(EncodeAll(rs)) == rs
  {
    hide Parse, Replay;
    var b := EncodeAll(rs);
    assert b[..|b|] == b;
    ReplayTruncated(rs, |b|);
    WholeRecordsLongest(rs, |b|);
    var j := WholeRecords(rs, |b|);
    if j < |rs| {
      EncodeAllGrows(rs, j + 1);
    }
    assert rs[..|rs|] == rs;
  }

  lemma {:induction false} EncodeAllGrows(rs: seq<Record>, j: nat)
    requires j <= |rs|
    ensures |EncodeAll(rs[..j])| <= |EncodeAll(rs)|
  {
    if j > 0 {
      EncodeAllGrows(rs[1..], j - 1);
      assert rs[..j][0] == rs[0] && rs[..j][1..] == rs[1..][..j - 1];
    }
  }

  // ----- appending after a torn tail -----

  lemma ParseKeepsWithMore(b: Bytes, more: Bytes)
    requires Parse(b).Some?
    ensures Parse(b + more) == Parse(b)
  {
    hide ReadLe;
    var c := b + more;
    var klen := ReadLe(b[1..5]);
    assert c[1..5] == b[1..5];
    assert c[5 + klen..9 + klen] == b[5 + klen..9 + klen];
    var vlen := ReadLe(b[5 + klen..9 + klen]);
    assert c[5..5 + klen] == b[5..5 + klen];
    assert c[9 + klen..9 + klen + vlen] == b[9 + klen..9 + klen + vlen];
  }

  // Cutting a log at any byte leaves a prefix of its records, with at least those whose
  // bytes were all before the cut.
  lemma {:induction false} CutLogIsPrefix(b: Bytes, s: nat, n: nat)
    requires s <= n <= |b|
    ensures |Replay(b[..s])| <= |Replay(b[..n])| <= |Replay(b)|
    ensures Replay(b[..n]) == Replay(b)[..|Replay(b[..n])|]
    decreases |b|
  {
    hide Parse;
    var c := b[..n];
    if Parse(c).Some? {
      ParseKeepsWithMore(c, b[n..]);
      assert c + b[n..] == b;
      var m := Parse(c).value.1;
      assert c[m..] == b[m..][..n - m];
      if Parse(b[..s]).Some? {
        ParseKeepsWithMore(b[..s], b[s..n]);
        assert b[..s] + b[s..n] == c;
        assert b[..s][m..] == b[m..][..s - m];
        CutLogIsPrefix(b[m..], s - m, n - m);
      } else {
        CutLogIsPrefix(b[m..], 0, n - m);
      }
    } else if Parse(b[..s]).Some? {
      ParseKeepsWithMore(b[..s], b[s..n]);
      assert b[..s] + b[s..n] == c;
    }
  }

  lemma {:induction false} ReplayContinues(b: Bytes, more: Bytes)
    ensures Replay(b + more) == Replay(b) + Replay(Tail(b) + more)
    ensures Parse(Tail(b)) == None
    decreases |b|
  {
    hide Parse;
    if Parse(b).Some? {
      var n := Parse(b).value.1;
      ParseKeepsWithMore(b, more);
      assert (b + more)[n..] == b[n..] + more;
      ReplayContinues(b[n..], more);
    }
  }

  lemma ReplayOne(r: Record)
    requires Loggable(r)
    ensures Replay(Encode(r)) == [r]
  {
    hide Parse;
    ParseEncoded(r, []);
    assert Encode(r) + [] == Encode(r);
    assert Encode(r)[|Encode(r)|..] == [];
    ParseNothing();
  }

  // A record whose op differs from the torn tail's first byte is misread.
  lemma TailSwallows(tail: Bytes, r: Record)
    requires tail != [] && (r.body.Inline? <==> tail[0] != 0)
    ensures Replay(tail + Encode(r)) != [r]
  {
    hide ReadLe;
    var b := tail + Encode(r);
    assert b[0] == tail[0];
    if Parse(b).Some? {
      assert Replay(b)[0].body.Inline? <==> b[0] == 0;
    }
  }

  // A log is reopened for appending without cutting its tail. Every record appended then
  // replays exactly when there is no torn tail.
  lemma AppendAfterReopenExact(b: Bytes)
    ensures (forall r :: Loggable(r) ==> Replay(b + Encode(r)) == Replay(b) + [r]) <==> Tail(b) == []
  {
    hide Parse, Replay, Tail, Encode;
    if Tail(b) == [] {
      forall r | Loggable(r) ensures Replay(b + Encode(r)) == Replay(b) + [r] {
        ReplayContinues(b, Encode(r));
        assert [] + Encode(r) == Encode(r);
        ReplayOne(r);
      }
    } else {
      var r := if Tail(b)[0] == 0 then Record([], Deleted) else Record([], Inline([]));
      ReplayContinues(b, Encode(r));
      TailSwallows(Tail(b), r);
      var got := Replay(Tail(b) + Encode(r));
      assert (Replay(b) + got)[|Replay(b)|..] == got && (Replay(b) + [r])[|Replay(b)|..] == [r];
      assert Loggable(r) && Replay(b + Encode(r)) != Replay(b) + [r];
    }
  }

  // What replay leaves of a truncated log is exactly the piece of a record at its end.
  lemma {:induction false} TailOfTruncated(rs: seq<Record>, n: nat)
    requires (forall r :: r in rs ==> Loggable(r)) && n <= |EncodeAll(rs)|
    ensures var whole := |EncodeAll(rs[..WholeRecords(rs, n)])|;
            whole <= n && Tail(EncodeAll(rs)[..n]) == EncodeAll(rs)[whole..n]
  {
    hide Parse, Encode, Tail, WholeRecords;
    WholeRecordsLongest(rs, n);
    CountUnfolds(rs, n);
    if rs == [] || n < |Encode(rs[0])| {
      TailIsTorn(rs, n);
    } else {
      var e := Encode(rs[0]);
      var j := WholeRecords(rs[1..], n - |e|);
      TailOfTruncated(rs[1..], n - |e|);
      TailSkips(rs, n);
      WholeOfMore(rs, j);
      ShiftedSlice(e, EncodeAll(rs[1..]), |EncodeAll(rs[1..][..j])|, n - |e|);
    }
  }

  lemma CountUnfolds(rs: seq<Record>, n: nat)
    ensures WholeRecords(rs, n) ==
            if rs == [] || n < |Encode(rs[0])| then 0 else 1 + WholeRecords(rs[1..], n - |Encode(rs[0])|)
    ensures WholeRecords(rs, n) == 0 ==> EncodeAll(rs[..WholeRecords(rs, n)]) == []
  {
    hide Encode;
  }

  lemma ShiftedSlice(e: Bytes, t: Bytes, i: nat, j: nat)
    requires i <= j <= |t|
    ensures (e + t)[|e| + i..|e| + j] == t[i..j]
  {
  }

  lemma TailIsTorn(rs: seq<Record>, n: nat)
    requires n <= |EncodeAll(rs)| && (rs == [] || (Loggable(rs[0]) && n < |Encode(rs[0])|))
    ensures Tail(EncodeAll(rs)[..n]) == EncodeAll(rs)[0..n]
  {
    hide Parse, Encode;
    assert EncodeAll(rs)[..n] == EncodeAll(rs)[0..n];
    if rs == [] {
      ParseNothing();
    } else {
      assert EncodeAll(rs)[..n] == Encode(rs[0])[..n];
      ParseTorn(rs[0], n);
    }
  }

  lemma TailSkips(rs: seq<Record>, n: nat)
    requires rs != [] && Loggable(rs[0]) && |Encode(rs[0])| <= n <= |EncodeAll(rs)|
    ensures Tail(EncodeAll(rs)[..n]) == Tail(EncodeAll(rs[1..])[..n - |Encode(rs[0])|])
  {
    hide Parse, Encode;
    var e := Encode(rs[0]);
    var rest := EncodeAll(rs[1..])[..n - |e|];
    assert EncodeAll(rs)[..n] == e + rest;
    ParseEncoded(rs[0], rest);
    assert (e + rest)[|e|..] == rest;
  }

  lemma WholeOfMore(rs: seq<Record>, j: nat)
    requires rs != [] && j < |rs|
    ensures EncodeAll(rs[..j + 1]) == Encode(rs[0]) + EncodeAll(rs[1..][..j])
  {
    hide Encode;
    assert rs[..j + 1][0] == rs[0] && rs[..j + 1][1..] == rs[1..][..j];
  }

  // A truncated log has a torn tail exactly when the cut is not between two records; then
  // some record appended to the reopened log is misread.
  lemma TornTailExact(rs: seq<Record>, n: nat)
    requires (forall r :: r in rs ==> Loggable(r)) && n <= |EncodeAll(rs)|
    ensures var b := EncodeAll(rs)[..n];
            && (Tail(b) == [] <==> n == |EncodeAll(rs[..WholeRecords(rs, n)])|)
            && ((forall r :: Loggable(r) ==> Replay(b + Encode(r)) == Replay(b) + [r]) <==>
                n == |EncodeAll(rs[..WholeRecords(rs, n)])|)
  {
    hide Parse, Encode, EncodeAll, Replay, Tail, WholeRecords, Loggable;
    TailOfTruncated(rs, n);
    AppendAfterReopenExact(EncodeAll(rs)[..n]);
  }

  // A put torn after its first byte, then a delete logged by the reopened store: the
  // delete is lost.
  lemma TornPutSwallowsADelete()
    ensures var put, del := Record([1], Inline([10])), Record([1], Deleted);
            var b := EncodeAll([put])[..1];
            && b != [] && Tail(b) == b
            && Replay(b) == [] && Replay(b + Encode(del)) == []
  {
    var put, del := Record([1], Inline([10])), Record([1], Deleted);
    var b := EncodeAll([put])[..1];
    assert b == [0];
    var c := b + Encode(del);
    assert U32(1) == [1, 0, 0, 0] && U32(0) == [0, 0, 0, 0] by {
      SmallCounts();
    }
    assert c == [0, 1, 1, 0, 0, 0, 1, 0, 0, 0, 0];
    assert c[1..5] == [1, 1, 0, 0];
    LengthOf257();
  }

  lemma SmallCounts()
    ensures Le(1, 4) == [1, 0, 0, 0] && Le(0, 4) == [0, 0, 0, 0]
  {
    assert Le(0, 0) == [] && Le(0, 1) == [0] && Le(0, 2) == [0, 0] && Le(0, 3) == [0, 0, 0];
  }

  lemma LengthOf257()
    ensures ReadLe([1, 1, 0, 0]) == 257
  {
    assert [1, 1, 0, 0][1..] == [1, 0, 0] && [1, 0, 0][1..] == [0, 0] && [0, 0][1..] == [0] && [0][1..] == [];
    assert ReadLe([0]) == 0 && ReadLe([0, 0]) == 0 && ReadLe([1, 0, 0]) == 1;
  }

  // Whatever the bytes, the lengths read are 32-bit ones.
  lemma {:induction false} ReplayIsLoggable(b: Bytes, r: Record)
    requires r in Replay(b)
    ensures Loggable(r)
    decreases |b|
  {
    hide Parse;
    var n := Parse(b).value.1;
    if r == Parse(b).value.0 {
      ParsedIsLoggable(b);
    } else {
      ReplayIsLoggable(b[n..], r);
    }
  }

  lemma ParsedIsLoggable(b: Bytes)
    requires Parse(b).Some?
    ensures Loggable(Parse(b).value.0)
  {
    hide ReadLe, Le;
    Widths();
    ReadLeRoundTrip(b[1..5]);
    var klen := ReadLe(b[1..5]);
    ReadLeRoundTrip(b[5 + klen..9 + klen]);
  }
}
