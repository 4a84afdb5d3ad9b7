// The value log of key-value separation: an append-only file of
// [klen:4][key][vlen:4][value] entries; a pointer names an entry's payload.
module ValueLog {
  import opened Keys
  import opened Codec
  import opened Records
  import opened Layers

  function Entry(key: Key, value: Bytes): (e: Bytes)
    ensures |e| == 8 + |key| + |value|
  {
    U32(|key|) + key + U32(|value|) + value
  }

  // Where the fields of an entry lie.
  lemma EntryFields(key: Key, value: Bytes)
    requires Fits32(|key|) && Fits32(|value|)
    ensures var e, p := Entry(key, value), 4 + |key|;
            && ReadLe(e[..4]) == |key| && e[4..p] == key && ReadLe(e[p..p + 4]) == |value| && e[p + 4..] == value
  {
    hide U32, ReadLe;
    var e, p := Entry(key, value), 4 + |key|;
    U32RoundTrip(|key|);
    U32RoundTrip(|value|);
    assert e[..4] == U32(|key|) && e[4..p] == key && e[p..p + 4] == U32(|value|) && e[p + 4..] == value;
  }

  // Where a value appended to a log of the given length lands.
  function PointerFor(gen: nat, end: nat, key: Key, value: Bytes): ValuePtr {
    ValuePtr(gen, end + 4 + |key| + 4, |value|)
  }

  predicate Reads(p: ValuePtr, log: Bytes, value: Bytes) {
    p.offset + p.len <= |log| && log[p.offset..p.offset + p.len] == value
  }

  lemma AppendReadsBack(gen: nat, log: Bytes, key: Key, value: Bytes)
    ensures Reads(PointerFor(gen, |log|, key, value), log + Entry(key, value), value)
  {
    var p := PointerFor(gen, |log|, key, value);
    var head := log + U32(|key|) + key + U32(|value|);
    assert log + Entry(key, value) == head + value;
    assert |head| == p.offset;
  }

  // Appending never disturbs an earlier payload.
  lemma ReadsSurviveGrowth(p: ValuePtr, log: Bytes, value: Bytes, more: Bytes)
    requires Reads(p, log, value)
    ensures Reads(p, log + more, value)
  {
    assert (log + more)[p.offset..p.offset + p.len] == log[p.offset..p.offset + p.len];
  }

  // The file with its append position. Only the length that was on disk when the file
  // was opened matters for where the next entry goes.
  class Log {
    const gen: nat
    var data: Bytes
    var appendOff: nat

    ghost predicate Valid()
      reads this
    {
      appendOff == |data|
    }

    constructor (gen: nat, onDisk: Bytes)
      ensures Valid() && this.gen == gen && data == onDisk
    {
      this.gen := gen;
      this.data := onDisk;
      this.appendOff := |onDisk|;
    }

    // Fails on fields of 4 GiB and more, leaving the log as it was.
    method Append(key: Key, value: Bytes) returns (ptr: Option<ValuePtr>)
      requires Valid()
      modifies this
      ensures Valid()
      ensures ptr.Some? <==> Fits32(|key|) && Fits32(|value|)
      ensures ptr == None ==> data == old(data)
      ensures ptr.Some? ==> data == old(data) + Entry(key, value) && ptr.value.gen == gen
      ensures ptr.Some? ==> Reads(ptr.value, data, value)
      ensures forall p, v :: Reads(p, old(data), v) ==> Reads(p, data, v)
    {
      if !Fits32(|key|) || !Fits32(|value|) {
        return None;
      }
      var rec := U32(|key|) + key + U32(|value|) + value;
      var recOff := appendOff;
      AppendReadsBack(gen, data, key, value);
      forall p, v | Reads(p, data, v) ensures Reads(p, data + rec, v) {
        ReadsSurviveGrowth(p, data, v, rec);
      }
      data := data[..recOff] + rec;
      appendOff := appendOff + |rec|;
      ptr := Some(ValuePtr(gen, recOff + 4 + |key| + 4, |value|));
    }

    // A positioned read; None stands for the end-of-file error.
    method Read(ptr: ValuePtr) returns (r: Option<Bytes>)
      requires Valid()
      ensures r.Some? <==> ptr.len == 0 || ptr.offset + ptr.len <= |data|
      ensures r.Some? ==> |r.value| == ptr.len && forall i :: 0 <= i < ptr.len ==> r.value[i] == data[ptr.offset + i]
      ensures forall v :: Reads(ptr, data, v) ==> r == Some(v)
    {
      var buf: Bytes := [];
      while |buf| < ptr.len
        invariant |buf| <= ptr.len && (|buf| > 0 ==> ptr.offset + |buf| <= |data|)
        invariant forall i :: 0 <= i < |buf| ==> buf[i] == data[ptr.offset + i]
      {
        if ptr.offset + |buf| >= |data| {
          return None;
        }
        buf := buf + [data[ptr.offset + |buf|]];
      }
      assert ptr.offset + ptr.len <= |data| ==> buf == data[ptr.offset..ptr.offset + ptr.len];
      r := Some(buf);
    }
  }

  // ----- moving values out of a list of records -----

  // A flush moves inline values of at least the threshold; garbage collection moves
  // every separated value out of the old logs.
  datatype Mover = BySize(threshold: nat) | FromLogs(logs: Logs)

  function Payload(b: Body, m: Mover): Option<Bytes> {
    match (b, m)
    case (Inline(v), BySize(t)) => if |v| >= t then Some(v) else None
    case (Separated(p), FromLogs(logs)) =>
      if InLog(p, logs) then Some(LogValue(p, logs)) else None
    case (_, _) => None
  }

  datatype Moved = Moved(recs: seq<Record>, log: Bytes)

  function MoveOut(recs: seq<Record>, m: Mover, gen: nat, log: Bytes): Moved {
    if recs == [] then Moved([], log)
    else
      match Payload(recs[0].body, m)
      case None =>
        var rest := MoveOut(recs[1..], m, gen, log);
        Moved([recs[0]] + rest.recs, rest.log)
      case Some(v) =>
        var rest := MoveOut(recs[1..], m, gen, log + Entry(recs[0].key, v));
        Moved([Record(recs[0].key, Separated(PointerFor(gen, |log|, recs[0].key, v)))] + rest.recs, rest.log)
  }

  // The bytes the move appends.
  function EntryBytes(recs: seq<Record>, m: Mover): nat {
    if recs == [] then 0
    else
      (match Payload(recs[0].body, m)
       case None => 0
       case Some(v) => 8 + |recs[0].key| + |v|) + EntryBytes(recs[1..], m)
  }

  // What becomes of a record: a flush moves exactly the inline values of at least the
  // threshold, a collection exactly the separated ones it can read, and a moved value
  // reads back at its pointer.
  ghost predicate MovedBody(b: Body, m: Mover, gen: nat, log: Bytes, b': Body) {
    match (b, m)
    case (Inline(v), BySize(t)) => if |v| >= t then PointsTo(b', gen, log, v) else b' == b
    case (Separated(p), FromLogs(logs)) => if InLog(p, logs) then PointsTo(b', gen, log, LogValue(p, logs)) else b' == b
    case (_, _) => b' == b
  }

  ghost predicate PointsTo(b: Body, gen: nat, log: Bytes, v: Bytes) {
    b.Separated? && b.ptr.gen == gen && Reads(b.ptr, log, v)
  }

  lemma {:induction false} MoveOutSpec(recs: seq<Record>, m: Mover, gen: nat, log: Bytes)
    ensures var r := MoveOut(recs, m, gen, log);
            && log <= r.log && |r.log| == |log| + EntryBytes(recs, m)
            && |r.recs| == |recs|
            && forall i :: 0 <= i < |recs| ==>
                 r.recs[i].key == recs[i].key && MovedBody(recs[i].body, m, gen, r.log, r.recs[i].body)
  {
    hide MovedBody, Entry, Payload;
    if recs != [] {
      var v := Payload(recs[0].body, m);
      var log1 := if v == None then log else log + Entry(recs[0].key, v.value);
      MoveOutSpec(recs[1..], m, gen, log1);
      var r := MoveOut(recs, m, gen, log);
      var rest := MoveOut(recs[1..], m, gen, log1);
      assert r.log == rest.log;
      assert forall i :: 0 < i < |recs| ==> r.recs[i] == rest.recs[i - 1] && recs[i] == recs[1..][i - 1];
      MovedFirst(recs[0], m, gen, log, r.log);
    }
  }

  lemma MovedFirst(rec: Record, m: Mover, gen: nat, log: Bytes, log': Bytes)
    requires var v := Payload(rec.body, m);
             (if v == None then log else log + Entry(rec.key, v.value)) <= log'
    ensures var v := Payload(rec.body, m);
            var b := if v == None then rec.body else Separated(PointerFor(gen, |log|, rec.key, v.value));
            MovedBody(rec.body, m, gen, log', b)
  {
    hide Entry;
    var v := Payload(rec.body, m);
    if v.Some? {
      var log1 := log + Entry(rec.key, v.value);
      AppendReadsBack(gen, log, rec.key, v.value);
      ReadsSurviveGrowth(PointerFor(gen, |log|, rec.key, v.value), log1, v.value, log'[|log1|..]);
      assert log' == log1 + log'[|log1|..];
    }
  }

  lemma MoveOutAt(recs: seq<Record>, i: nat, m: Mover, gen: nat, log: Bytes, out: seq<Record>)
    requires i < |recs|
    ensures var v := Payload(recs[i].body, m);
            var log1 := if v == None then log else log + Entry(recs[i].key, v.value);
            var r := if v == None then recs[i]
                     else Record(recs[i].key, Separated(PointerFor(gen, |log|, recs[i].key, v.value)));
            var rest := MoveOut(recs[i + 1..], m, gen, log1);
            && MoveOut(recs[i..], m, gen, log).log == rest.log
            && out + MoveOut(recs[i..], m, gen, log).recs == (out + [r]) + rest.recs
  {
    hide Entry, Payload;
    assert recs[i..][1..] == recs[i + 1..];
    var v := Payload(recs[i].body, m);
    var log1 := if v == None then log else log + Entry(recs[i].key, v.value);
    var r := if v == None then recs[i]
             else Record(recs[i].key, Separated(PointerFor(gen, |log|, recs[i].key, v.value)));
    var rest := MoveOut(recs[i + 1..], m, gen, log1);
    assert MoveOut(recs[i..], m, gen, log).recs == [r] + rest.recs;
    assert out + ([r] + rest.recs) == (out + [r]) + rest.recs;
  }

  // No field the move appends is 4 GiB or more.
  ghost predicate Appendable(r: Record, m: Mover) {
    Payload(r.body, m).Some? ==> Fits32(|r.key|) && Fits32(|Payload(r.body, m).value|)
  }

  // The loop of a flush and of garbage collection: append, then repoint the record. It
  // fails at the first field of 4 GiB or more, the entries before it already appended.
  method MoveValues(recs: seq<Record>, m: Mover, gen: nat, log: Bytes)
    returns (ok: bool, out: seq<Record>, log': Bytes)
    ensures ok <==> forall r :: r in recs ==> Appendable(r, m)
    ensures ok ==> Moved(out, log') == MoveOut(recs, m, gen, log)
    ensures ok ==>
              && |out| == |recs|
              && forall i :: 0 <= i < |recs| ==>
                   out[i].key == recs[i].key && MovedBody(recs[i].body, m, gen, log', out[i].body)
    ensures log <= log'
  {
    hide MoveOut, Entry, Payload, MovedBody;
    ok, out, log' := true, [], log;
    var i := 0;
    assert recs[0..] == recs;
    while i < |recs|
      invariant 0 <= i <= |recs| && log <= log'
      invariant forall j :: 0 <= j < i ==> Appendable(recs[j], m)
      invariant MoveOut(recs, m, gen, log).log == MoveOut(recs[i..], m, gen, log').log
      invariant MoveOut(recs, m, gen, log).recs == out + MoveOut(recs[i..], m, gen, log').recs
    {
      MoveOutAt(recs, i, m, gen, log', out);
      var r := recs[i];
      var payload := Payload(r.body, m);
      if payload.Some? {
        if !Fits32(|r.key|) || !Fits32(|payload.value|) {
          assert recs[i] in recs;
          ok := false;
          return;
        }
        var end := |log'|;
        log' := log' + Entry(r.key, payload.value);
        r := Record(r.key, Separated(PointerFor(gen, end, r.key, payload.value)));
      }
      out := out + [r];
      i := i + 1;
    }
    MoveNothing(m, gen, log');
    assert recs[i..] == [] && out + [] == out;
    MoveOutSpec(recs, m, gen, log);
  }

  lemma MoveNothing(m: Mover, gen: nat, log: Bytes)
    ensures MoveOut([], m, gen, log) == Moved([], log)
  {
  }

  // The same on a table's contents, taken in key order.
  ghost function MoveTable(recs: map<Key, Body>, m: Mover, gen: nat, log: Bytes): (map<Key, Body>, Bytes) {
    var r := MoveOut(Listing(recs), m, gen, log);
    (ToMap(r.recs), r.log)
  }

  lemma SameKeys(a: seq<Record>, b: seq<Record>)
    requires |a| == |b| && (forall i :: 0 <= i < |a| ==> a[i].key == b[i].key) && Ascending(a)
    ensures Ascending(b) && ToMap(b).Keys == ToMap(a).Keys
  {
    hide Less, ToMap;
    forall k ensures k in ToMap(b) <==> k in ToMap(a) {
      ToMapKeys(a, k);
      ToMapKeys(b, k);
    }
  }

  lemma MoveTableSpec(recs: map<Key, Body>, m: Mover, gen: nat, log: Bytes)
    ensures var (recs', log') := MoveTable(recs, m, gen, log);
            && log <= log' && |log'| == |log| + EntryBytes(Listing(recs), m)
            && recs'.Keys == recs.Keys
            && forall k :: k in recs ==> MovedBody(recs[k], m, gen, log', recs'[k])
  {
    hide Less, ToMap, Listing, MoveOut, EntryBytes, MovedBody, Ascending;
    var s := Listing(recs);
    ListingOf(recs);
    MoveOutSpec(s, m, gen, log);
    var r := MoveOut(s, m, gen, log);
    SameKeys(s, r.recs);
    forall k | k in recs ensures k in ToMap(r.recs) && MovedBody(recs[k], m, gen, r.log, ToMap(r.recs)[k]) {
      ToMapKeys(s, k);
      var i :| 0 <= i < |s| && s[i].key == k;
      ToMapAt(s, i);
      ToMapAt(r.recs, i);
    }
  }

  // ----- sizes -----

  // The lengths a record may have: what the formats' 32-bit fields hold.
  predicate Fit(k: Key, b: Body) {
    && Fits32(|k|)
    && match b
       case Inline(v) => Fits32(|v|)
       case Separated(p) => Fits32(p.len)
       case Deleted => true
  }

  ghost predicate FitMap(m: map<Key, Body>) {
    forall k :: k in m ==> Fit(k, m[k])
  }

  // A move of records that fit does not fail, and what it leaves fits.
  lemma FitMoves(recs: map<Key, Body>, m: Mover, gen: nat, log: Bytes)
    requires FitMap(recs)
    ensures forall r :: r in Listing(recs) ==> Appendable(r, m)
    ensures FitMap(MoveTable(recs, m, gen, log).0)
  {
    hide Less, ToMap, Listing, MoveOut, EntryBytes, Ascending;
    var s := Listing(recs);
    ListingOf(recs);
    forall r | r in s ensures Appendable(r, m) {
      var i :| 0 <= i < |s| && s[i] == r;
      ToMapAt(s, i);
    }
    MoveTableSpec(recs, m, gen, log);
    var (recs', log') := MoveTable(recs, m, gen, log);
    forall k | k in recs' ensures Fit(k, recs'[k]) {
      assert MovedBody(recs[k], m, gen, log', recs'[k]);
    }
  }

  // The bytes of a log that the records' pointers account for, entry headers included.
  function PointedBytes(recs: seq<Record>): nat {
    if recs == [] then 0
    else (if recs[0].body.Separated? then 8 + |recs[0].key| + recs[0].body.ptr.len else 0) + PointedBytes(recs[1..])
  }

  // If every pointer of the source can be read, the entries appended are exactly those
  // the moved records point to.
  lemma {:induction false} MoveOutPointed(recs: seq<Record>, logs: Logs, gen: nat, log: Bytes)
    requires forall r :: r in recs && r.body.Separated? ==> InLog(r.body.ptr, logs)
    ensures PointedBytes(MoveOut(recs, FromLogs(logs), gen, log).recs) == EntryBytes(recs, FromLogs(logs))
  {
    hide Entry;
    if recs != [] {
      var m := FromLogs(logs);
      var v := Payload(recs[0].body, m);
      var log1 := if v == None then log else log + Entry(recs[0].key, v.value);
      assert recs[0] in recs;
      MoveOutPointed(recs[1..], logs, gen, log1);
      var r, rest := MoveOut(recs, m, gen, log), MoveOut(recs[1..], m, gen, log1);
      assert r.recs[1..] == rest.recs;
    }
  }

  lemma MoveTablePointed(recs: map<Key, Body>, logs: Logs, gen: nat, log: Bytes)
    requires forall k :: k in recs && recs[k].Separated? ==> InLog(recs[k].ptr, logs)
    ensures PointedBytes(Listing(MoveTable(recs, FromLogs(logs), gen, log).0)) ==
            EntryBytes(Listing(recs), FromLogs(logs))
  {
    hide Less, ToMap, Listing, MoveOut, EntryBytes, Ascending, PointedBytes, InLog, MovedBody;
    var s := Listing(recs);
    ListingOf(recs);
    forall r | r in s && r.body.Separated? ensures InLog(r.body.ptr, logs) {
      var i :| 0 <= i < |s| && s[i] == r;
      ToMapAt(s, i);
    }
    MoveOutPointed(s, logs, gen, log);
    MoveOutSpec(s, FromLogs(logs), gen, log);
    var r := MoveOut(s, FromLogs(logs), gen, log);
    SameKeys(s, r.recs);
    ListingUnique(r.recs);
  }
}
