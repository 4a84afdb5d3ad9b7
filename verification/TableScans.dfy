// Range reads and the compaction cursor over an SSTable.
module TableScans {
  import opened Keys
  import opened Records
  import opened TableFormat
  import opened TableReads

  function InRange(rs: seq<Record>, start: Key, end: Key): seq<Record> {
    if rs == [] then []
    else (if AtMost(start, rs[0].key) && Less(rs[0].key, end) then [rs[0]] else []) + InRange(rs[1..], start, end)
  }

  lemma {:induction false} InRangeConcat(a: seq<Record>, b: seq<Record>, start: Key, end: Key)
    ensures InRange(a + b, start, end) == InRange(a, start, end) + InRange(b, start, end)
  {
    hide Less;
    if a == [] {
      assert a + b == b;
    } else {
      assert (a + b)[1..] == a[1..] + b;
      InRangeConcat(a[1..], b, start, end);
    }
  }

  lemma {:induction false} NothingInRange(rs: seq<Record>, start: Key, end: Key)
    requires forall r :: r in rs ==> Less(r.key, start) || AtMost(end, r.key)
    ensures InRange(rs, start, end) == []
  {
    hide Less;
    if rs != [] {
      NothingInRange(rs[1..], start, end);
    }
  }

  // Once an ascending list has reached the end key nothing more is in range.
  lemma PastTheEnd(rs: seq<Record>, start: Key, end: Key)
    requires Ascending(rs) && (rs != [] ==> AtMost(end, rs[0].key))
    ensures InRange(rs, start, end) == []
  {
    hide Less, Ascending;
    KeyOrder();
    forall r | r in rs ensures AtMost(end, r.key) {
      AscendingHead(rs, r);
    }
    NothingInRange(rs, start, end);
  }

  lemma {:induction false} FlattenSplit(bs: seq<seq<Record>>, i: nat)
    requires i <= |bs|
    ensures Flatten(bs) == Flatten(bs[..i]) + Flatten(bs[i..])
  {
    if i > 0 {
      FlattenSplit(bs[1..], i - 1);
      assert bs[..i][0] == bs[0] && bs[..i][1..] == bs[1..][..i - 1] && bs[1..][i - 1..] == bs[i..];
    } else {
      assert bs[..0] == [] && bs[0..] == bs;
    }
  }

  // Blocks before the one found for start hold only smaller keys.
  lemma SkippedBlocks(bs: seq<seq<Record>>, i: nat, start: Key, end: Key)
    requires NonEmpty(bs) && Ascending(Flatten(bs)) && i < |bs|
    requires i > 0 ==> AtMost(bs[i][0].key, start)
    ensures InRange(Flatten(bs[..i]), start, end) == []
  {
    hide Less, Ascending;
    KeyOrder();
    FlattenSplit(bs, i);
    AscendingParts(Flatten(bs[..i]), Flatten(bs[i..]));
    RestStartsWith(bs[i..]);
    assert Flatten(bs[i..])[0] in Flatten(bs[i..]);
    if i == 0 {
      assert Flatten(bs[..i]) == [];
    }
    NothingInRange(Flatten(bs[..i]), start, end);
  }

  ghost predicate SplitAt(all: seq<Record>, done: seq<Record>, todo: seq<Record>) {
    all == done + todo
  }

  lemma StopHere(all: seq<Record>, done: seq<Record>, todo: seq<Record>, start: Key, end: Key)
    requires Ascending(all) && SplitAt(all, done, todo) && (todo != [] ==> AtMost(end, todo[0].key))
    ensures InRange(all, start, end) == InRange(done, start, end)
  {
    hide Less, Ascending;
    AscendingParts(done, todo);
    PastTheEnd(todo, start, end);
    InRangeConcat(done, todo, start, end);
  }

  lemma OneMore(all: seq<Record>, done: seq<Record>, todo: seq<Record>, start: Key, end: Key)
    requires SplitAt(all, done, todo) && todo != [] && Less(todo[0].key, end)
    ensures SplitAt(all, done + [todo[0]], todo[1..])
    ensures InRange(done + [todo[0]], start, end) ==
            InRange(done, start, end) + (if AtMost(start, todo[0].key) then [todo[0]] else [])
  {
    hide Less;
    InRangeConcat(done, [todo[0]], start, end);
    assert [todo[0]][1..] == [];
    assert todo == [todo[0]] + todo[1..];
  }

  lemma OverBasics(t: Opened, bs: seq<seq<Record>>)
    requires Over(t, bs)
    ensures |t.index| == |bs| && NonEmpty(bs) && Ascending(Flatten(bs))
  {
    hide Less, BlockAt, Flatten;
  }

  lemma OverBlock(t: Opened, bs: seq<seq<Record>>, i: nat)
    requires Over(t, bs) && i < |bs|
    ensures bs[i] != [] && t.index[i].firstKey == bs[i][0].key && BlockAt(t.file, t.index[i]) == Some(bs[i])
  {
    hide Less, BlockAt, Flatten, Ascending;
  }

  // One block of a range: stops at the first record past the end.
  method RangeBlock(block: seq<Record>, start: Key, end: Key, sofar: seq<Record>, ghost all: seq<Record>,
                    ghost before: seq<Record>, ghost after: seq<Record>)
    returns (out: seq<Record>, stop: bool, ghost done: seq<Record>, ghost todo: seq<Record>)
    requires Ascending(all) && SplitAt(all, before, block + after) && sofar == InRange(before, start, end)
    ensures stop ==> out == InRange(all, start, end)
    ensures !stop ==> SplitAt(all, done, todo) && todo == after && out == InRange(done, start, end)
  {
    hide Less, Ascending, InRange, SplitAt;
    KeyOrder();
    out, stop, done, todo := sofar, false, before, block + after;
    var j := 0;
    while j < |block|
      invariant 0 <= j <= |block|
      invariant SplitAt(all, done, todo) && todo == block[j..] + after
      invariant out == InRange(done, start, end)
    {
      assert todo[0] == block[j];
      if !Less(block[j].key, end) {
        StopHere(all, done, todo, start, end);
        stop := true;
        return;
      }
      OneMore(all, done, todo, start, end);
      if !Less(block[j].key, start) {
        out := out + [block[j]];
      }
      assert todo[1..] == block[j + 1..] + after;
      done, todo := done + [todo[0]], todo[1..];
      j := j + 1;
    }
    assert block[j..] + after == after;
  }

  // range agrees with filtering the records the table was built from.
  method Range(t: Opened, start: Key, end: Key, ghost bs: seq<seq<Record>>) returns (out: seq<Record>)
    requires Over(t, bs)
    ensures out == InRange(Flatten(bs), start, end)
  {
    hide Less, Flatten, Ascending, InRange, SplitAt, Over;
    KeyOrder();
    ghost var all := Flatten(bs);
    OverBasics(t, bs);
    out := [];
    if t.index == [] {
      assert all == [] by { EmptyFlatten(bs); }
      StopHereEmpty(start, end);
      return;
    }
    if !Less(start, end) {
      forall r | r in all ensures Less(r.key, start) || AtMost(end, r.key) {
      }
      NothingInRange(all, start, end);
      return;
    }
    var p := UpperBound(t, start, bs);
    var i := if p == 0 then 0 else p - 1;
    ghost var done, todo := Flatten(bs[..i]), Flatten(bs[i..]);
    FlattenSplit(bs, i);
    Splits(all, done, todo);
    OverBlock(t, bs, i);
    SkippedBlocks(bs, i, start, end);
    while i < |t.index|
      invariant 0 <= i <= |t.index|
      invariant SplitAt(all, done, todo) && todo == Flatten(bs[i..]) && out == InRange(done, start, end)
    {
      BlockHead(bs, i);
      OverBlock(t, bs, i);
      if !Less(t.index[i].firstKey, end) {
        StopHere(all, done, todo, start, end);
        return;
      }
      var recs := ReadBlock(t.file, t.index[i]);
      var stop;
      out, stop, done, todo := RangeBlock(recs.value, start, end, out, all, done, Flatten(bs[i + 1..]));
      if stop {
        return;
      }
      i := i + 1;
    }
    assert bs[i..] == [];
    EmptyFlatten(bs[i..]);
    StopHere(all, done, todo, start, end);
  }

  lemma EmptyFlatten(bs: seq<seq<Record>>)
    requires bs == []
    ensures Flatten(bs) == []
  {
  }

  lemma StopHereEmpty(start: Key, end: Key)
    ensures InRange([], start, end) == []
  {
  }

  lemma Splits(all: seq<Record>, done: seq<Record>, todo: seq<Record>)
    requires all == done + todo
    ensures SplitAt(all, done, todo)
  {
  }

  lemma BlockHead(bs: seq<seq<Record>>, i: nat)
    requires NonEmpty(bs) && i < |bs|
    ensures Flatten(bs[i..]) == bs[i] + Flatten(bs[i + 1..])
    ensures Flatten(bs[i..]) != [] && Flatten(bs[i..])[0] == bs[i][0]
  {
    assert bs[i..][1..] == bs[i + 1..];
  }

  // ----- the cursor -----

  // Reads one block at a time.
  class Cursor {
    const t: Opened
    ghost const bs: seq<seq<Record>>
    var blockIdx: nat
    var pos: nat
    var block: seq<Record>

    ghost predicate Valid()
      reads this
    {
      && Over(t, bs)
      && (blockIdx < |t.index| ==> block == bs[blockIdx] && pos < |block|)
    }

    // What is still to be read.
    ghost function Remaining(): seq<Record>
      reads this
      requires Valid()
    {
      if blockIdx < |t.index| then block[pos..] + Flatten(bs[blockIdx + 1..]) else []
    }

    constructor (t: Opened, ghost bs: seq<seq<Record>>)
      requires Over(t, bs)
      ensures Valid() && this.t == t && this.bs == bs && Remaining() == Flatten(bs)
    {
      hide Flatten, BlockAt, Ascending, Offset;
      this.t := t;
      this.bs := bs;
      blockIdx := 0;
      pos := 0;
      block := [];
      new;
      if t.index != [] {
        BlockHead(bs, 0);
        assert bs[0..] == bs;
        LoadBlock(0);
      } else {
        EmptyFlatten(bs);
      }
    }

    method LoadBlock(i: nat)
      requires Over(t, bs) && i < |t.index|
      modifies this
      ensures Valid() && blockIdx == i && pos == 0 && Remaining() == Flatten(bs[i..])
    {
      hide Flatten, BlockAt, Ascending, Offset;
      blockIdx := i;
      var recs := ReadBlock(t.file, t.index[i]);
      block := recs.value;
      pos := 0;
      BlockHead(bs, i);
      assert block[0..] == block;
    }

    method HasCurrent() returns (b: bool)
      requires Valid()
      ensures b <==> Remaining() != []
    {
      b := blockIdx < |t.index| && pos < |block|;
    }

    method Current() returns (r: Record)
      requires Valid() && Remaining() != []
      ensures r == Remaining()[0]
    {
      r := block[pos];
    }

    method Next()
      requires Valid() && Remaining() != []
      modifies this
      ensures Valid() && Remaining() == old(Remaining())[1..]
    {
      hide Flatten, Over;
      OverBasics(t, bs);
      ghost var rest := Flatten(bs[blockIdx + 1..]);
      assert Remaining()[1..] == block[pos + 1..] + rest;
      pos := pos + 1;
      if pos >= |block| {
        assert block[pos..] + rest == rest;
        if blockIdx + 1 < |t.index| {
          LoadBlock(blockIdx + 1);
        } else {
          EmptyFlatten(bs[blockIdx + 1..]);
          blockIdx := |t.index|;
        }
      }
    }
  }

  // Draining the cursor enumerates exactly the records the table was built from.
  method Enumerate(t: Opened, ghost bs: seq<seq<Record>>) returns (out: seq<Record>)
    requires Over(t, bs)
    ensures out == Flatten(bs)
  {
    hide Flatten, Over, Cursor.Valid, Cursor.Remaining;
    var c := new Cursor(t, bs);
    ghost var left := c.Remaining();
    out := [];
    var more := c.HasCurrent();
    while more
      invariant c.Valid() && fresh(c) && left == c.Remaining()
      invariant more <==> left != []
      invariant out + left == Flatten(bs)
      decreases |left|
    {
      var r := c.Current();
      assert left == [r] + left[1..];
      out := out + [r];
      c.Next();
      left := c.Remaining();
      more := c.HasCurrent();
    }
  }
}
