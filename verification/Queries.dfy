// Range scans over the memtables and the table list.
module Queries {
  import opened Keys
  import opened Records
  import opened Layers
  import opened Merge
  import opened TableScans

  function SealedOr(sealed: Option<map<Key, Body>>): map<Key, Body> {
    if sealed.Some? then sealed.value else map[]
  }

  predicate Within(k: Key, start: Key, end: Key) {
    AtMost(start, k) && Less(k, end)
  }

  // Half-open, in the order of bytes: the start is in, the end is not.
  lemma RangeIsHalfOpen(k: Key, start: Key, end: Key)
    ensures Within(k, start, end) <==>
            !(exists i: nat :: SmallerAt(k, start, i)) && exists i: nat :: SmallerAt(k, end, i)
  {
    hide Less, SmallerAt;
    LessAtFirstDifference(k, start);
    LessAtFirstDifference(k, end);
  }

  function Clip(m: map<Key, Body>, start: Key, end: Key): map<Key, Body> {
    map k | k in m && Within(k, start, end) :: m[k]
  }

  lemma ClipAt(m: map<Key, Body>, start: Key, end: Key, k: Key)
    ensures k in Clip(m, start, end) <==> k in m && Within(k, start, end)
    ensures k in Clip(m, start, end) ==> Clip(m, start, end)[k] == m[k]
  {
  }

  lemma ClipInsert(m: map<Key, Body>, start: Key, end: Key, k: Key, b: Body)
    requires k !in m
    ensures Clip(m[k := b], start, end) ==
            if Within(k, start, end) then Clip(m, start, end)[k := b] else Clip(m, start, end)
  {
  }

  lemma ClipPlus(a: map<Key, Body>, b: map<Key, Body>, start: Key, end: Key)
    ensures Clip(a + b, start, end) == Clip(a, start, end) + Clip(b, start, end)
  {
  }

  lemma {:induction false} InRangeIsClip(rs: seq<Record>, start: Key, end: Key)
    requires Ascending(rs)
    ensures Ascending(InRange(rs, start, end)) && ToMap(InRange(rs, start, end)) == Clip(ToMap(rs), start, end)
  {
    hide Less, Clip, ToMap;
    if rs == [] {
      EmptyClip(start, end);
    } else {
      ToMapCons(rs);
      InRangeIsClip(rs[1..], start, end);
      ClipInsert(ToMap(rs[1..]), start, end, rs[0].key, rs[0].body);
      var rest := InRange(rs[1..], start, end);
      if Within(rs[0].key, start, end) {
        forall k | k in ToMap(rest) ensures Less(rs[0].key, k) {
          ClipAt(ToMap(rs[1..]), start, end, k);
          FirstIsBelow(rs, k);
        }
        AscendingCons(rs[0], rest);
      }
      assert InRange(rs, start, end) == if Within(rs[0].key, start, end) then [rs[0]] + rest else rest;
    }
  }

  lemma EmptyClip(start: Key, end: Key)
    ensures ToMap([]) == map[] && Clip(map[], start, end) == map[]
  {
  }

  lemma FirstIsBelow(rs: seq<Record>, k: Key)
    requires Ascending(rs) && rs != [] && k in ToMap(rs[1..])
    ensures Less(rs[0].key, k)
  {
    hide Less;
    ToMapKeys(rs[1..], k);
    var i :| 0 <= i < |rs[1..]| && rs[1..][i].key == k;
    assert rs[i + 1].key == k;
  }

  // The runs a scan merges: each layer's records in range, in key order.
  ghost function SourcesOf(layers: seq<map<Key, Body>>, start: Key, end: Key): seq<seq<Record>> {
    seq(|layers|, i requires 0 <= i < |layers| => InRange(Listing(layers[i]), start, end))
  }

  function OverlayMaps(layers: seq<map<Key, Body>>): map<Key, Body> {
    if layers == [] then map[] else OverlayMaps(layers[1..]) + layers[0]
  }

  lemma {:induction false} SourcesOverlay(layers: seq<map<Key, Body>>, start: Key, end: Key)
    ensures AllAscending(SourcesOf(layers, start, end))
    ensures OverlayOf(SourcesOf(layers, start, end)) == Clip(OverlayMaps(layers), start, end)
  {
    hide Less, InRange, Listing, Ascending, ToMap, Clip;
    var src := SourcesOf(layers, start, end);
    forall i | 0 <= i < |layers| ensures Ascending(src[i]) {
      ListingOf(layers[i]);
      InRangeIsClip(Listing(layers[i]), start, end);
    }
    if layers == [] {
      EmptyClip(start, end);
    } else {
      SourcesOverlay(layers[1..], start, end);
      ListingOf(layers[0]);
      InRangeIsClip(Listing(layers[0]), start, end);
      assert src[1..] == SourcesOf(layers[1..], start, end);
      ClipPlus(OverlayMaps(layers[1..]), layers[0], start, end);
    }
  }

  // Memtables on top, tables below.
  function LayersOf(mem: map<Key, Body>, sealed: Option<map<Key, Body>>, tables: seq<Table>): seq<map<Key, Body>> {
    [mem] + (if sealed.Some? then [sealed.value] else []) +
    seq(|tables|, i requires 0 <= i < |tables| => tables[i].recs)
  }

  lemma {:induction false} OverlayMapsConcat(a: seq<map<Key, Body>>, b: seq<map<Key, Body>>)
    ensures OverlayMaps(a + b) == OverlayMaps(b) + OverlayMaps(a)
  {
    if a == [] {
      assert a + b == b;
    } else {
      assert (a + b)[1..] == a[1..] + b;
      OverlayMapsConcat(a[1..], b);
    }
  }

  lemma {:induction false} OverlayMapsTables(tables: seq<Table>)
    ensures OverlayMaps(seq(|tables|, i requires 0 <= i < |tables| => tables[i].recs)) == Overlay(tables)
  {
    if tables != [] {
      var maps := seq(|tables|, i requires 0 <= i < |tables| => tables[i].recs);
      assert maps[1..] == seq(|tables[1..]|, i requires 0 <= i < |tables[1..]| => tables[1..][i].recs);
      OverlayMapsTables(tables[1..]);
    }
  }

  // The overlay of the layers answers as a get does.
  lemma LayersAnswer(mem: map<Key, Body>, sealed: Option<map<Key, Body>>, tables: seq<Table>, logs: Logs, k: Key)
    ensures var all := OverlayMaps(LayersOf(mem, sealed, tables));
            View(SealedOr(sealed) + mem, tables, logs, k) == if k in all then Resolve(all[k], logs) else Missing
  {
    var below := seq(|tables|, i requires 0 <= i < |tables| => tables[i].recs);
    var top := [mem] + (if sealed.Some? then [sealed.value] else []);
    OverlayMapsConcat(top, below);
    OverlayMapsTables(tables);
    LookupOverlay(tables, k);
    assert OverlayMaps(top) == SealedOr(sealed) + mem by {
      TopLayers(mem, sealed);
    }
  }

  lemma TopLayers(mem: map<Key, Body>, sealed: Option<map<Key, Body>>)
    ensures OverlayMaps([mem] + (if sealed.Some? then [sealed.value] else [])) == SealedOr(sealed) + mem
  {
    var top := [mem] + (if sealed.Some? then [sealed.value] else []);
    if sealed.Some? {
      assert top[1..] == [sealed.value];
      var tail := top[1..];
      assert |tail[1..]| == 0;
      assert OverlayMaps(tail) == map[] + sealed.value;
    } else {
      assert |top[1..]| == 0;
    }
  }

  ghost predicate PairsAscend(out: seq<(Key, Bytes)>) {
    forall i, j :: 0 <= i < j < |out| ==> Less(out[i].0, out[j].0)
  }

  // The emitted pairs are the values of the keys already consumed.
  ghost predicate Emitted(all: map<Key, Body>, rest: map<Key, Body>, out: seq<(Key, Bytes)>, logs: Logs) {
    && PairsAscend(out)
    && (forall k :: k in rest ==> k in all && rest[k] == all[k])
    && (forall p, y :: p in out && y in rest ==> Less(p.0, y))
    && (forall p :: p in out ==> p.0 in all && Resolve(all[p.0], logs) == Found(p.1))
    && (forall k :: k in all && k !in rest && Resolve(all[k], logs).Found? ==> (k, Resolve(all[k], logs).value) in out)
  }

  lemma EmitPair(all: map<Key, Body>, rest: map<Key, Body>, out: seq<(Key, Bytes)>, logs: Logs, k: Key)
    requires Emitted(all, rest, out, logs) && IsLeast(k, rest.Keys)
    ensures var a := Resolve(rest[k], logs);
            Emitted(all, rest - {k}, if a.Found? then out + [(k, a.value)] else out, logs)
  {
    hide Less;
    KeyOrder();
    var a := Resolve(rest[k], logs);
    if a.Found? {
      var out' := out + [(k, a.value)];
      forall i, j | 0 <= i < j < |out'| ensures Less(out'[i].0, out'[j].0) {
        if j == |out| {
          assert out[i] in out;
        }
      }
      forall p, y | p in out' && y in rest - {k} ensures Less(p.0, y) {
        assert p == (k, a.value) || p in out;
      }
    }
  }

  // scan returns, strictly ascending, exactly the pairs in range that get finds in the
  // same state. None stands for a value that cannot be read, which then some key's get
  // cannot read either.
  method Scan(sources: seq<seq<Record>>, logs: Logs, ghost mem: map<Key, Body>, ghost sealed: Option<map<Key, Body>>,
              ghost tables: seq<Table>, ghost start: Key, ghost end: Key)
    returns (out: Option<seq<(Key, Bytes)>>)
    requires sources == SourcesOf(LayersOf(mem, sealed, tables), start, end)
    ensures out.Some? ==> PairsAscend(out.value)
    ensures out.Some? ==> forall k, v ::
              (k, v) in out.value <==>
              Within(k, start, end) && View(SealedOr(sealed) + mem, tables, logs, k) == Found(v)
    ensures out == None ==> exists k :: Within(k, start, end) && View(SealedOr(sealed) + mem, tables, logs, k) == Broken
  {
    hide Less, OverlayOf, Ascending, Emitted, IsLeast, SourcesOf, LayersOf, OverlayMaps, Clip, View, Within, Rest,
         AllAscending;
    ghost var layers := LayersOf(mem, sealed, tables);
    ghost var all := Clip(OverlayMaps(layers), start, end);
    SourcesOverlay(layers, start, end);
    var cur := new nat[|sources|](j => 0);
    var pairs: seq<(Key, Bytes)> := [];
    ghost var rest := sources;
    AtTheStart(sources, cur);
    StartEmitting(all, logs);
    while true
      invariant CursorsOk(sources, cur) && rest == Rest(sources, cur[..])
      invariant AllAscending(rest) && Emitted(all, OverlayOf(rest), pairs, logs)
      decreases |OverlayOf(rest)|
    {
      var rec := TakeSmallest(sources, cur);
      if rec == None {
        break;
      }
      var key, body := rec.value.key, rec.value.body;
      EmitPair(all, OverlayOf(rest), pairs, logs, key);
      LeastIsMember(OverlayOf(rest), key);
      if body != Deleted && Resolve(body, logs) == Broken {
        BrokenKey(all, OverlayOf(rest), pairs, logs, key);
        ClipAt(OverlayMaps(layers), start, end, key);
        LayersAnswer(mem, sealed, tables, logs, key);
        return None;
      }
      rest := Rest(sources, cur[..]);
      if body != Deleted {
        pairs := pairs + [(key, Resolve(body, logs).value)];
      }
    }
    FinishEmitting(all, pairs, logs);
    forall k, v
      ensures (k, v) in pairs <==> Within(k, start, end) && View(SealedOr(sealed) + mem, tables, logs, k) == Found(v)
    {
      ClipAt(OverlayMaps(layers), start, end, k);
      LayersAnswer(mem, sealed, tables, logs, k);
    }
    out := Some(pairs);
  }

  lemma StartEmitting(all: map<Key, Body>, logs: Logs)
    ensures Emitted(all, all, [], logs)
  {
  }

  lemma BrokenKey(all: map<Key, Body>, rest: map<Key, Body>, out: seq<(Key, Bytes)>, logs: Logs, k: Key)
    requires Emitted(all, rest, out, logs) && k in rest
    ensures k in all && all[k] == rest[k]
  {
    hide Less;
  }

  lemma FinishEmitting(all: map<Key, Body>, out: seq<(Key, Bytes)>, logs: Logs)
    requires Emitted(all, map[], out, logs)
    ensures PairsAscend(out)
    ensures forall k, v :: (k, v) in out <==> k in all && Resolve(all[k], logs) == Found(v)
  {
    hide Less;
  }
}
