// Cutting a leveled merge's records into output files of about the target size.
module LeveledSplit {
  import opened Keys
  import opened Records
  import opened Layers
  import opened Leveled
  import opened LeveledCommit
  import opened TableFormat

  // The bytes the split counts for a record.
  function Cost(r: Record): nat {
    1 + 4 + |r.key| + 4 + (match r.body case Separated(_) => 12 case Inline(v) => |v| case Deleted => 0)
  }

  // It is the record's size in the file.
  lemma CostIsEncodedSize(r: Record)
    ensures Cost(r) == |Encode(r)|
  {
  }

  lemma SizeSnoc(rs: seq<Record>, r: Record)
    ensures |EncodeAll(rs + [r])| == |EncodeAll(rs)| + Cost(r)
  {
    EncodeAllConcat(rs, [r]);
    assert [r][1..] == [];
    CostIsEncodedSize(r);
  }

  // A file is closed by the record that takes its data to the target size.
  ghost predicate FullGroup(g: seq<Record>, target: nat) {
    g != [] && |EncodeAll(g)| >= target && (|g| > 1 ==> |EncodeAll(g[..|g| - 1])| < target)
  }

  // Consecutive non-empty pieces, all full, except that the last may be short.
  ghost predicate Grouping(groups: seq<seq<Record>>, merged: seq<Record>, target: nat) {
    && Flatten(groups) == merged && NonEmpty(groups)
    && forall i :: 0 <= i < |groups| ==>
         FullGroup(groups[i], target) || (i == |groups| - 1 && |EncodeAll(groups[i])| < target)
  }

  method Split(merged: seq<Record>, target: nat) returns (groups: seq<seq<Record>>)
    ensures Grouping(groups, merged, target)
  {
    hide Cost, Flatten, EncodeAll;
    groups := [];
    var cur: seq<Record>, curBytes := [], 0;
    var i := 0;
    assert Flatten(groups) + cur == merged[..0] && |EncodeAll([])| == 0 by {
      FlattenNothing();
    }
    while i < |merged|
      invariant 0 <= i <= |merged| && Flatten(groups) + cur == merged[..i] && curBytes == |EncodeAll(cur)|
      invariant forall j :: 0 <= j < |groups| ==> FullGroup(groups[j], target)
      invariant cur != [] ==> |EncodeAll(cur)| < target
    {
      var r := merged[i];
      ghost var before := cur;
      SizeSnoc(cur, r);
      curBytes := curBytes + Cost(r);
      cur := cur + [r];
      assert cur[..|cur| - 1] == before;
      assert merged[..i + 1] == merged[..i] + [r];
      i := i + 1;
      if curBytes >= target {
        FlattenSnoc(groups, cur);
        groups := groups + [cur];
        cur, curBytes := [], 0;
        FlattenNothing();
        assert Flatten(groups) + cur == Flatten(groups);
      }
    }
    assert merged[..i] == merged;
    if cur != [] {
      FlattenSnoc(groups, cur);
      groups := groups + [cur];
    } else {
      assert Flatten(groups) + cur == Flatten(groups);
    }
  }

  lemma FlattenNothing()
    ensures Flatten([]) == [] && EncodeAll([]) == []
  {
  }

  // The tables made of the groups, numbered from id.
  function OutputTables(groups: seq<seq<Record>>, id: nat, level: nat): seq<Table> {
    seq(|groups|, i requires 0 <= i < |groups| => Table(id + i, level, ToMap(groups[i])))
  }

  lemma {:induction false} FlattenToMap(groups: seq<seq<Record>>, k: Key)
    requires Ascending(Flatten(groups))
    ensures k in ToMap(Flatten(groups)) <==> exists i :: 0 <= i < |groups| && k in ToMap(groups[i])
    ensures forall i :: 0 <= i < |groups| && k in ToMap(groups[i]) ==>
              k in ToMap(Flatten(groups)) && ToMap(groups[i])[k] == ToMap(Flatten(groups))[k]
  {
    hide Less, Ascending, ToMap;
    if groups == [] {
      ToMapKeys([], k);
    } else {
      var rest := Flatten(groups[1..]);
      AscendingParts(groups[0], rest);
      FlattenToMap(groups[1..], k);
      ToMapAppend(groups[0], rest);
      assert forall i :: 0 < i < |groups| ==> groups[i] == groups[1..][i - 1];
      if k in ToMap(groups[0]) {
        NotInBoth(groups[0], rest, k);
      }
      if k in ToMap(rest) {
        var i :| 0 <= i < |groups[1..]| && k in ToMap(groups[1..][i]);
        assert k in ToMap(groups[i + 1]);
      }
    }
  }

  lemma NotInBoth(a: seq<Record>, b: seq<Record>, k: Key)
    requires k in ToMap(a) && forall x, y :: x in a && y in b ==> Less(x.key, y.key)
    ensures k !in ToMap(b)
  {
    hide Less;
    KeyOrder();
    ToMapKeys(a, k);
    ToMapKeys(b, k);
    var i :| 0 <= i < |a| && a[i].key == k;
    forall j | 0 <= j < |b| ensures b[j].key != k {
      assert Less(a[i].key, b[j].key);
    }
  }

  // Output files hold the merged records, share none, and lie in key order: exactly what
  // the commit needs.
  lemma GroupsAreSplit(groups: seq<seq<Record>>, id: nat, level: nat)
    requires NonEmpty(groups) && Ascending(Flatten(groups))
    ensures IsSplit(OutputTables(groups, id, level), level, ToMap(Flatten(groups)))
  {
    hide Less, ToMap, Ascending, Flatten, MinKey, MaxKey;
    var outs, merged := OutputTables(groups, id, level), ToMap(Flatten(groups));
    forall i, j | 0 <= i < j < |outs| ensures Less(MaxKey(outs[i]), MinKey(outs[j])) {
      BlocksOrdered(groups, i, j);
      BlocksOrdered(groups, j, j);
      GroupRange(groups[i], outs[i]);
      GroupRange(groups[j], outs[j]);
    }
    forall o | o in outs ensures o.level == level && o.recs != map[] {
      var i :| 0 <= i < |outs| && outs[i] == o;
      BlocksOrdered(groups, i, i);
      GroupRange(groups[i], o);
    }
    forall o, k | o in outs && k in o.recs ensures k in merged && o.recs[k] == merged[k] {
      var i :| 0 <= i < |outs| && outs[i] == o;
      FlattenToMap(groups, k);
    }
    forall k | k in merged ensures exists o :: o in outs && k in o.recs {
      FlattenToMap(groups, k);
      var i :| 0 <= i < |groups| && k in ToMap(groups[i]);
      assert outs[i] in outs;
    }
  }

  // A table's range ends are the keys of records of its list.
  lemma GroupRange(g: seq<Record>, t: Table)
    requires Ascending(g) && g != [] && t.recs == ToMap(g)
    ensures t.recs != map[]
    ensures exists r :: r in g && r.key == MinKey(t)
    ensures exists r :: r in g && r.key == MaxKey(t)
  {
    hide Less, ToMap;
    ToMapAt(g, 0);
    ToMapKeys(g, MinKey(t));
    ToMapKeys(g, MaxKey(t));
    assert MinKey(t) in t.recs.Keys && MaxKey(t) in t.recs.Keys;
  }
}
